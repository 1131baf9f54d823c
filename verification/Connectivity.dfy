/** neuro_san/internals/chat/connectivity_reporter.py

    The connectivity report of an agent network: a recursive walk over a graph of agents that
    may be cyclic, sharing one set of already reported names. */
module Connectivity {
  import opened Wrappers

  /** What `args.tools` holds: nothing usable, a dictionary (whose values are dropped by the
      code, because a dictionary view is not a list), or a list. */
  datatype ArgsTools = NoArgsTools | ArgsToolDict(values: seq<string>) | ArgsToolList(names: seq<string>)

  datatype AgentSpec = AgentSpec(
    allowConnectivity: bool,
    tools: seq<string>,
    argsTools: ArgsTools,
    displayAs: Option<string>,
    toolbox: Option<string>,
    hasFunction: bool,
    hasClass: bool,
    metadata: Option<string>)

  datatype ToolInfo = ToolInfo(displayAs: Option<string>, description: Option<string>)

  /** The inspected network: agent names in file order, their specs, the toolbox, and the test
      for names that refer to another network. */
  datatype RawNetwork = RawNetwork(
    order: seq<string>,
    specs: map<string, AgentSpec>,
    toolbox: map<string, ToolInfo>,
    isExternal: string -> bool)

  type Network = n: RawNetwork | forall name :: name in n.order ==> name in n.specs
    witness RawNetwork([], map[], map[], _ => false)

  datatype Entry = Entry(origin: string, tools: seq<string>, displayAs: string, metadata: Option<string>)

  datatype Error = NoFrontMan | NoSpecToDisplay

  // ---------- The tool list of one agent ----------

  /** The elements of `s` at their first occurrences, in order. */
  function Distinct(s: seq<string>): seq<string> {
    if s == [] then []
    else
      var front := Distinct(s[..|s| - 1]);
      if s[|s| - 1] in front then front else front + [s[|s| - 1]]
  }

  lemma DistinctSnoc(s: seq<string>, x: string)
    ensures Distinct(s + [x]) == if x in Distinct(s) then Distinct(s) else Distinct(s) + [x]
  {
    assert (s + [x])[..|s|] == s;
  }

  /** Position `p` is the first occurrence of `x`. */
  predicate FirstAt(s: seq<string>, p: nat, x: string) {
    p < |s| && s[p] == x && x !in s[..p]
  }

  lemma FirstStaysFirst(s: seq<string>, last: string, p: nat, x: string)
    requires FirstAt(s, p, x)
    ensures FirstAt(s + [last], p, x)
  {
    assert (s + [last])[..p] == s[..p];
  }

  /** Distinct picks exactly the first occurrence of every element and keeps their order. */
  lemma {:induction false} DistinctPicksFirstOccurrences(s: seq<string>) returns (at: seq<nat>)
    ensures |at| == |Distinct(s)|
    ensures forall i, j :: 0 <= i < j < |at| ==> at[i] < at[j]
    ensures forall i :: 0 <= i < |at| ==> FirstAt(s, at[i], Distinct(s)[i])
    ensures forall x :: x in s <==> x in Distinct(s)
  {
    if s == [] {
      at := [];
    } else {
      var front, last := s[..|s| - 1], s[|s| - 1];
      at := DistinctPicksFirstOccurrences(front);
      assert s == front + [last];
      forall i | 0 <= i < |at| ensures FirstAt(s, at[i], Distinct(front)[i]) && at[i] < |front| {
        FirstStaysFirst(front, last, at[i], Distinct(front)[i]);
      }
      if last !in Distinct(front) {
        assert (front + [last])[..|front|] == front && FirstAt(s, |front|, last);
        at := at + [|front|];
      }
    }
  }

  lemma DistinctHasNoRepeats(s: seq<string>)
    ensures forall i, j :: 0 <= i < j < |Distinct(s)| ==> Distinct(s)[i] != Distinct(s)[j]
    ensures forall x :: x in s <==> x in Distinct(s)
  {
    var at := DistinctPicksFirstOccurrences(s);
    forall i, j | 0 <= i < j < |Distinct(s)| ensures Distinct(s)[i] != Distinct(s)[j] {
      assert FirstAt(s, at[i], Distinct(s)[i]) && FirstAt(s, at[j], Distinct(s)[j]);
      assert s[at[i]] in s[..at[j]];
    }
  }

  lemma {:induction false} DistinctIgnoresKnown(s: seq<string>, more: seq<string>)
    requires forall x :: x in more ==> x in s
    ensures Distinct(s + more) == Distinct(s)
  {
    if more == [] {
      assert s + more == s;
    } else {
      var front, last := more[..|more| - 1], more[|more| - 1];
      DistinctIgnoresKnown(s, front);
      Assoc(s, front, [last]);
      assert more == front + [last];
      DistinctSnoc(s + front, last);
      DistinctHasNoRepeats(s);
    }
  }

  /** Every tool an agent names: its own list, then the list form of `args.tools`. */
  function ListedTools(spec: AgentSpec): seq<string> {
    spec.tools + (if spec.argsTools.ArgsToolList? then spec.argsTools.names else [])
  }

  /** A dictionary form of `args.tools` is dropped. Listing its values instead would change the tool
      list exactly when one of them is not among the agent's own tools. */
  lemma DictionaryToolsMissingIff(spec: AgentSpec)
    requires spec.argsTools.ArgsToolDict?
    ensures var values := spec.argsTools.values; var listed := spec.(argsTools := ArgsToolList(values));
            Distinct(ListedTools(listed)) != Distinct(ListedTools(spec)) <==>
            exists v :: v in values && v !in spec.tools
  {
    var tools, values := spec.tools, spec.argsTools.values;
    assert ListedTools(spec) == tools;
    if forall v :: v in values ==> v in tools {
      DistinctIgnoresKnown(tools, values);
    } else {
      var v :| v in values && v !in tools;
      assert v in tools + values;
      DistinctHasNoRepeats(tools + values);
      DistinctHasNoRepeats(tools);
    }
  }

  lemma DistinctOneMore(listed: seq<string>, tools: seq<string>, i: nat)
    requires i < |tools|
    ensures var d := Distinct(listed + tools[..i]);
            Distinct(listed + tools[..i + 1]) == if tools[i] in d then d else d + [tools[i]]
  {
    assert tools[..i + 1] == tools[..i] + [tools[i]];
    Assoc(listed, tools[..i], [tools[i]]);
    DistinctSnoc(listed + tools[..i], tools[i]);
  }

  /** The loop that the code has once for each source of tools: add in order, without repeats. */
  method AddTools(ghost listed: seq<string>, tools: seq<string>, toolSet: set<string>, toolList: seq<string>)
    returns (newSet: set<string>, newList: seq<string>)
    requires toolList == Distinct(listed) && forall x :: x in toolSet <==> x in toolList
    ensures newList == Distinct(listed + tools) && forall x :: x in newSet <==> x in newList
  {
    newSet, newList := toolSet, toolList;
    assert listed + tools[..0] == listed;
    for i := 0 to |tools|
      invariant newList == Distinct(listed + tools[..i])
      invariant forall x :: x in newSet <==> x in newList
    {
      DistinctOneMore(listed, tools, i);
      if tools[i] !in newSet {
        newSet := newSet + {tools[i]};
        newList := newList + [tools[i]];
      }
    }
    assert tools[..|tools|] == tools;
  }

  method AssembleToolList(spec: Option<AgentSpec>) returns (toolList: seq<string>)
    ensures toolList == if spec.None? then [] else Distinct(ListedTools(spec.value))
    ensures spec.Some? ==> toolList == match spec.value.argsTools
                                       case ArgsToolList(names) => Distinct(spec.value.tools + names)
                                       case _ => Distinct(spec.value.tools)
  {
    toolList := [];
    if spec.None? {
      return;
    }
    var toolSet: set<string> := {};
    assert [] + spec.value.tools == spec.value.tools;
    toolSet, toolList := AddTools([], spec.value.tools, toolSet, toolList);
    if spec.value.argsTools.ArgsToolList? {
      toolSet, toolList := AddTools(spec.value.tools, spec.value.argsTools.names, toolSet, toolList);
    } else {
      assert spec.value.tools + [] == spec.value.tools;
    }
  }

  function DetermineDisplayAs(spec: AgentSpec, toolbox: map<string, ToolInfo>): string {
    if spec.displayAs.Some? then spec.displayAs.value
    else if spec.toolbox.Some? then
      var known := spec.toolbox.value in toolbox;
      if known && toolbox[spec.toolbox.value].displayAs.Some? then toolbox[spec.toolbox.value].displayAs.value
      else if known && toolbox[spec.toolbox.value].description.Some? then "coded_tool"
      else "langchain_tool"
    else if spec.hasFunction && spec.hasClass then "coded_tool"
    else "llm_agent"
  }

  // ---------- What may be reported about a node ----------

  predicate Reportable(net: Network, name: string) {
    net.isExternal(name) || name in net.specs
  }

  /** A node of this network that asked for its connectivity not to be known. */
  predicate Hidden(net: Network, name: string) {
    !net.isExternal(name) && name in net.specs && !net.specs[name].allowConnectivity
  }

  function ReportedTools(net: Network, name: string): seq<string> {
    if !net.isExternal(name) && name in net.specs && net.specs[name].allowConnectivity
    then Distinct(ListedTools(net.specs[name])) else []
  }

  function EntryFor(net: Network, name: string): Entry {
    if net.isExternal(name) || name !in net.specs then Entry(name, [], "external_agent", None)
    else Entry(name, ReportedTools(net, name), DetermineDisplayAs(net.specs[name], net.toolbox),
        net.specs[name].metadata)
  }

  // ---------- Depth-first preorder, with an explicit stack of names still to visit ----------

  datatype Walk = Crashed | Walk(entries: seq<Entry>, seen: set<string>)

  /** The reference traversal: pop a name; if it is new and can be reported, report it and push
      its tools in front of everything that was waiting. */
  function Preorder(net: Network, stack: seq<string>, seen: set<string>): Walk
    decreases net.specs.Keys - seen, |stack|
  {
    if stack == [] then Walk([], seen)
    else
      var name, rest := stack[0], stack[1..];
      if name in seen || !Reportable(net, name) then Preorder(net, rest, seen)
      else if Hidden(net, name) then Crashed
      else
        assert name in net.specs.Keys || net.specs.Keys - (seen + {name}) == net.specs.Keys - seen;
        match Preorder(net, ReportedTools(net, name) + rest, seen + {name})
        case Crashed => Crashed
        case Walk(entries, after) => Walk([EntryFor(net, name)] + entries, after)
  }

  function Then(first: Walk, second: Walk): Walk {
    if first.Crashed? || second.Crashed? then Crashed else Walk(first.entries + second.entries, second.seen)
  }

  lemma AssocEntries(first: Entry, walk: Walk, b: seq<string>, net: Network)
    ensures walk.Walk? && Preorder(net, b, walk.seen).Walk? ==>
              [first] + (walk.entries + Preorder(net, b, walk.seen).entries) == ([first] + walk.entries)
                  + Preorder(net, b, walk.seen).entries
  {
    if walk.Walk? && Preorder(net, b, walk.seen).Walk? {
      Assoc([first], walk.entries, Preorder(net, b, walk.seen).entries);
    }
  }

  /** Visiting one list of names and then another is visiting their concatenation. */
  lemma {:induction false} PreorderSplits(net: Network, a: seq<string>, b: seq<string>, seen: set<string>)
    ensures Preorder(net, a + b, seen) ==
            var first := Preorder(net, a, seen);
            if first.Crashed? then Crashed else Then(first, Preorder(net, b, first.seen))
    decreases net.specs.Keys - seen, |a|
  {
    if a == [] {
      assert a + b == b;
    } else {
      var name, rest := a[0], a[1..];
      assert a == [name] + rest;
      Assoc([name], rest, b);
      assert (a + b)[0] == name && (a + b)[1..] == rest + b;
      if name in seen || !Reportable(net, name) {
        PreorderSplits(net, rest, b, seen);
      } else if !Hidden(net, name) {
        var tools := ReportedTools(net, name);
        Assoc(tools, rest, b);
        assert name in net.specs.Keys || net.specs.Keys - (seen + {name}) == net.specs.Keys - seen;
        PreorderSplits(net, tools + rest, b, seen + {name});
        AssocEntries(EntryFor(net, name), Preorder(net, tools + rest, seen + {name}), b, net);
      }
    }
  }

  /** Visiting a single name. */
  lemma PreorderOfOne(net: Network, name: string, seen: set<string>)
    ensures Preorder(net, [name], seen) ==
            if name in seen || !Reportable(net, name) then Walk([], seen)
            else if Hidden(net, name) then Crashed
            else Then(Walk([EntryFor(net, name)], seen), Preorder(net, ReportedTools(net, name), seen + {name}))
  {
    assert [name][1..] == [];
    assert ReportedTools(net, name) + [] == ReportedTools(net, name);
  }

  /** Visiting one more of a list of names, and what a failure there means for the whole list. */
  lemma PreorderOneMore(net: Network, names: seq<string>, i: nat, seen: set<string>)
    requires i < |names| && Preorder(net, names[..i], seen).Walk?
    ensures var first := Preorder(net, names[..i], seen); var next := Preorder(net, [names[i]], first.seen);
            && Preorder(net, names[..i + 1], seen) == Then(first, next)
            && (next.Crashed? ==> Preorder(net, names, seen).Crashed?)
  {
    assert names[..i + 1] == names[..i] + [names[i]];
    assert names == names[..i + 1] + names[i + 1..];
    PreorderSplits(net, names[..i], [names[i]], seen);
    PreorderSplits(net, names[..i + 1], names[i + 1..], seen);
  }

  /** One turn of the loop over the tools: a reported tool is passed over, any other is walked. */
  lemma NextTool(net: Network, tools: seq<string>, i: nat, start: set<string>, below: seq<Entry>, seen: set<string>)
    requires i < |tools| && Preorder(net, tools[..i], start) == Walk(below, seen)
    ensures tools[i] in seen ==> Preorder(net, tools[..i + 1], start) == Walk(below, seen)
    ensures match Preorder(net, [tools[i]], seen)
            case Crashed => Preorder(net, tools, start).Crashed?
            case Walk(entries, after) => Preorder(net, tools[..i + 1], start) == Walk(below + entries, after)
  {
    PreorderOneMore(net, tools, i, start);
    PreorderOfOne(net, tools[i], seen);
    assert below + [] == below;
  }

  // ---------- The walk as written ----------

  /** The set object that every level of the recursion shares. */
  class ReportedAgents {
    var names: set<string>

    constructor ()
      ensures names == {}
    {
      names := {};
    }
  }

  /** A caller has checked that the name is not reported yet. */
  method ReportNodeConnectivity(net: Network, agentName: string, reported: ReportedAgents)
    returns (r: Result<seq<Entry>, Error>)
    requires agentName !in reported.names
    modifies reported
    ensures old(reported.names) <= reported.names
    ensures match Preorder(net, [agentName], old(reported.names))
            case Crashed => r == Failure(NoSpecToDisplay)
            case Walk(entries, seen) => r == Success(entries) && reported.names == seen
    ensures net.isExternal(agentName) ==> r == Success([Entry(agentName, [], "external_agent", None)])
    ensures !net.isExternal(agentName) && agentName !in net.specs ==> r == Success([])
    decreases net.specs.Keys - reported.names
  {
    var agentSpec: Option<AgentSpec> := None;
    var displayAs: Option<string> := None;
    var metadata: Option<string> := None;
    PreorderOfOne(net, agentName, reported.names);

    if !net.isExternal(agentName) {
      if agentName !in net.specs {
        return Success([]);
      }
      agentSpec := Some(net.specs[agentName]);
      if !agentSpec.value.allowConnectivity {
        agentSpec := None;
      }
    } else {
      displayAs := Some("external_agent");
    }

    var toolList := AssembleToolList(agentSpec);
    if displayAs.None? {
      if agentSpec.None? {
        return Failure(NoSpecToDisplay);  // the code dereferences the missing spec here
      }
      displayAs := Some(DetermineDisplayAs(agentSpec.value, net.toolbox));
    }
    if agentSpec.Some? {
      metadata := agentSpec.value.metadata;
    }

    var entry := Entry(agentName, toolList, displayAs.value, metadata);
    ghost var start := reported.names + {agentName};
    reported.names := reported.names + {agentName};
    var connectivityList := [entry];
    ghost var below: seq<Entry> := [];
    for i := 0 to |toolList|
      invariant start <= reported.names
      invariant connectivityList == [entry] + below
      invariant Preorder(net, toolList[..i], start) == Walk(below, reported.names)
    {
      NextTool(net, toolList, i, start, below, reported.names);
      if toolList[i] !in reported.names {
        var deeper := ReportNodeConnectivity(net, toolList[i], reported);
        if deeper.Failure? {
          return deeper;
        }
        Assoc([entry], below, deeper.value);
        connectivityList := connectivityList + deeper.value;
        below := below + deeper.value;
      }
    }
    assert toolList[..|toolList|] == toolList;
    r := Success(connectivityList);
  }

  // ---------- Reachability along reported tool lists ----------

  /** The spec of `a` lists `b` as a tool, and `a` lets its connectivity be known. */
  predicate Lists(net: Network, a: string, b: string) {
    && !net.isExternal(a) && a in net.specs && net.specs[a].allowConnectivity
    && (b in net.specs[a].tools || (net.specs[a].argsTools.ArgsToolList? && b in net.specs[a].argsTools.names))
  }

  lemma ReportedToolsAreListed(net: Network, a: string, b: string)
    ensures b in ReportedTools(net, a) <==> Lists(net, a, b)
  {
    if !net.isExternal(a) && a in net.specs && net.specs[a].allowConnectivity {
      DistinctHasNoRepeats(ListedTools(net.specs[a]));
    }
  }

  /** A path along listed tools. All its nodes are agents of other networks or have a spec. */
  ghost predicate IsPath(net: Network, p: seq<string>) {
    && p != []
    && (forall i :: 0 <= i < |p| ==> net.isExternal(p[i]) || p[i] in net.specs)
    && (forall i :: 0 <= i < |p| - 1 ==> Lists(net, p[i], p[i + 1]))
  }

  ghost predicate Reachable(net: Network, source: string, target: string) {
    exists p :: IsPath(net, p) && p[0] == source && p[|p| - 1] == target
  }

  function Origins(entries: seq<Entry>): seq<string> {
    seq(|entries|, i requires 0 <= i < |entries| => entries[i].origin)
  }

  ghost predicate Closed(net: Network, nodes: set<string>, within: set<string>) {
    forall name, tool :: name in nodes && tool in ReportedTools(net, name) && Reportable(net, tool) ==> tool in within
  }

  /** New names only, each once, each with its own entry. */
  ghost predicate FreshEntries(net: Network, entries: seq<Entry>, seen: set<string>) {
    var origins := Origins(entries);
    && (forall n :: n in origins ==> n !in seen && Reportable(net, n) && !Hidden(net, n))
    && (forall i, j :: 0 <= i < j < |origins| ==> origins[i] != origins[j])
    && (forall i :: 0 <= i < |origins| ==> entries[i] == EntryFor(net, origins[i]))
  }

  lemma FreshCons(net: Network, name: string, entries: seq<Entry>, seen: set<string>)
    requires FreshEntries(net, entries, seen + {name}) && name !in seen && Reportable(net, name) && !Hidden(net, name)
    ensures FreshEntries(net, [EntryFor(net, name)] + entries, seen)
    ensures Origins([EntryFor(net, name)] + entries) == [name] + Origins(entries)
  {
    assert EntryFor(net, name).origin == name;
    assert Origins([EntryFor(net, name)] + entries) == [name] + Origins(entries);
  }

  /** A finished walk reports new names only, each once, each with its own entry, and leaves no
      reportable tool of a reported node unreported. */
  lemma {:induction false} PreorderIsClosed(net: Network, stack: seq<string>, seen: set<string>)
    requires Preorder(net, stack, seen).Walk?
    ensures var w := Preorder(net, stack, seen);
            && FreshEntries(net, w.entries, seen)
            && w.seen == seen + (set n | n in Origins(w.entries))
            && (forall n :: n in stack && Reportable(net, n) ==> n in w.seen)
            && Closed(net, w.seen - seen, w.seen)
    decreases net.specs.Keys - seen, |stack|
  {
    if stack == [] {
    } else {
      var name, rest := stack[0], stack[1..];
      if name in seen || !Reportable(net, name) {
        PreorderIsClosed(net, rest, seen);
      } else {
        assert name in net.specs.Keys || net.specs.Keys - (seen + {name}) == net.specs.Keys - seen;
        var tools := ReportedTools(net, name);
        var w, w' := Preorder(net, stack, seen), Preorder(net, tools + rest, seen + {name});
        PreorderIsClosed(net, tools + rest, seen + {name});
        FreshCons(net, name, w'.entries, seen);
        assert w.seen - seen == (w'.seen - (seen + {name})) + {name};
        assert forall t :: t in tools ==> t in tools + rest;
      }
    }
  }

  lemma ReachableStep(net: Network, root: string, name: string, tool: string)
    requires Reachable(net, root, name) && tool in ReportedTools(net, name) && Reportable(net, tool)
    ensures Reachable(net, root, tool)
  {
    var p :| IsPath(net, p) && p[0] == root && p[|p| - 1] == name;
    ReportedToolsAreListed(net, name, tool);
    assert IsPath(net, p + [tool]) && (p + [tool])[0] == root && (p + [tool])[|p|] == tool;
  }

  lemma ToolsAreReachable(net: Network, root: string, name: string, rest: seq<string>)
    requires Reachable(net, root, name) && forall n :: n in rest && Reportable(net, n) ==> Reachable(net, root, n)
    ensures forall n :: n in ReportedTools(net, name) + rest && Reportable(net, n) ==> Reachable(net, root, n)
  {
    var tools := ReportedTools(net, name);
    forall n | n in tools + rest && Reportable(net, n) ensures Reachable(net, root, n) {
      if n in tools { ReachableStep(net, root, name, n); }
    }
  }

  /** Everything a walk reports is reachable, and it only fails at a reachable hidden node. */
  lemma {:induction false} PreorderIsSound(net: Network, root: string, stack: seq<string>, seen: set<string>)
    requires forall n :: n in stack && Reportable(net, n) ==> Reachable(net, root, n)
    ensures match Preorder(net, stack, seen)
            case Crashed => exists n :: Reachable(net, root, n) && Hidden(net, n)
            case Walk(entries, _) => forall n :: n in Origins(entries) ==> Reachable(net, root, n)
    decreases net.specs.Keys - seen, |stack|
  {
    if stack == [] {
    } else {
      var name, rest := stack[0], stack[1..];
      if name in seen || !Reportable(net, name) {
        PreorderIsSound(net, root, rest, seen);
      } else if Hidden(net, name) {
        assert Reachable(net, root, name);
      } else {
        assert name in net.specs.Keys || net.specs.Keys - (seen + {name}) == net.specs.Keys - seen;
        var tools := ReportedTools(net, name);
        assert name in stack && forall n :: n in rest ==> n in stack;
        ToolsAreReachable(net, root, name, rest);
        PreorderIsSound(net, root, tools + rest, seen + {name});
        var w' := Preorder(net, tools + rest, seen + {name});
        if w'.Walk? { OriginsCons(net, name, w'.entries); }
      }
    }
  }

  lemma {:induction false} PathStaysInside(net: Network, p: seq<string>, nodes: set<string>)
    requires IsPath(net, p) && p[0] in nodes && Closed(net, nodes, nodes)
    ensures p[|p| - 1] in nodes
  {
    if |p| > 1 {
      PathStaysInside(net, p[..|p| - 1], nodes);
      assert Lists(net, p[|p| - 2], p[|p| - 1]);
      ReportedToolsAreListed(net, p[|p| - 2], p[|p| - 1]);
    }
  }

  /** The walk from the front man finishes exactly when no hidden node can be reached, and then
      it reports exactly the reachable nodes. */
  lemma PreorderReportsReachable(net: Network, root: string)
    requires Reportable(net, root)
    ensures var w := Preorder(net, [root], {});
            && (w.Walk? <==> forall n :: Reachable(net, root, n) ==> !Hidden(net, n))
            && (w.Walk? ==> forall n :: n in Origins(w.entries) <==> Reachable(net, root, n))
  {
    var w := Preorder(net, [root], {});
    assert IsPath(net, [root]);
    assert Reachable(net, root, root);
    PreorderIsSound(net, root, [root], {});
    if w.Walk? {
      PreorderIsClosed(net, [root], {});
      assert w.seen - {} == w.seen;
      forall n | Reachable(net, root, n) ensures n in w.seen {
        var p :| IsPath(net, p) && p[0] == root && p[|p| - 1] == n;
        PathStaysInside(net, p, w.seen);
      }
    }
  }

  // ---------- The report of a whole network ----------

  /** The first agent of the file, unless it is a coded tool or comes from a toolbox. */
  function FindFrontMan(net: Network): Result<string, Error> {
    if net.order == [] then Failure(NoFrontMan)
    else if net.specs[net.order[0]].hasClass || net.specs[net.order[0]].toolbox.Some? then Failure(NoFrontMan)
    else Success(net.order[0])
  }

  /** The first agent of the file may be the front man. */
  predicate HasFrontMan(net: Network) {
    net.order != [] && !net.specs[net.order[0]].hasClass && net.specs[net.order[0]].toolbox.None?
  }

  /** Every reachable agent of this network lets its connectivity be known. */
  ghost predicate NothingHidden(net: Network, root: string) {
    forall n :: Reachable(net, root, n) && !net.isExternal(n) ==> n in net.specs && net.specs[n].allowConnectivity
  }

  /** What an entry says about its node: nothing about an agent of another network; the tools of
      its spec, each once, and its metadata about any other. */
  ghost predicate Describes(net: Network, e: Entry) {
    if net.isExternal(e.origin) then e.tools == [] && e.displayAs == "external_agent" && e.metadata == None
    else
      && e.origin in net.specs
      && var spec := net.specs[e.origin];
      && spec.allowConnectivity && e.metadata == spec.metadata
      && (forall t :: t in e.tools <==>
            t in spec.tools || (spec.argsTools.ArgsToolList? && t in spec.argsTools.names))
      && (forall i, j :: 0 <= i < j < |e.tools| ==> e.tools[i] != e.tools[j])
      && e.tools == Distinct(spec.tools + if spec.argsTools.ArgsToolList? then spec.argsTools.names else [])
      && DisplaysAs(spec, net.toolbox, e.displayAs)
  }

  /** A node's own wish comes first, then that of its toolbox entry; what comes from a toolbox is
      shown as a langchain tool unless it is described there; what has a function and a class is a
      coded tool; all else is an agent. */
  predicate DisplaysAs(spec: AgentSpec, toolbox: map<string, ToolInfo>, displayAs: string) {
    match (spec.displayAs, spec.toolbox)
    case (Some(own), _) => displayAs == own
    case (None, None) => displayAs == if spec.hasFunction && spec.hasClass then "coded_tool" else "llm_agent"
    case (None, Some(tool)) =>
      && (tool !in toolbox ==> displayAs == "langchain_tool")
      && (tool in toolbox && toolbox[tool].displayAs.Some? ==> displayAs == toolbox[tool].displayAs.value)
      && (tool in toolbox && toolbox[tool].displayAs.None? ==>
            (displayAs == "coded_tool" && toolbox[tool].description.Some?)
            || (displayAs == "langchain_tool" && toolbox[tool].description.None?))
  }

  lemma EntryDescribes(net: Network, name: string)
    requires Reportable(net, name) && !Hidden(net, name)
    ensures Describes(net, EntryFor(net, name)) && EntryFor(net, name).origin == name
    ensures forall t :: t in EntryFor(net, name).tools <==> Lists(net, name, t)
  {
    forall t ensures t in EntryFor(net, name).tools <==> Lists(net, name, t) { ReportedToolsAreListed(net, name, t); }
    if !net.isExternal(name) {
      DistinctHasNoRepeats(ListedTools(net.specs[name]));
    }
  }

  /** Every tool in the report that is an agent of another network, or has a spec, has an entry of
      its own; no other tool has. */
  ghost predicate EveryToolReported(net: Network, entries: seq<Entry>) {
    forall i, t :: 0 <= i < |entries| && t in entries[i].tools ==>
      (t in Origins(entries) <==> net.isExternal(t) || t in net.specs)
  }

  lemma ReportIsComplete(net: Network, root: string)
    requires Reportable(net, root) && Preorder(net, [root], {}).Walk?
    ensures var entries := Preorder(net, [root], {}).entries;
            EveryToolReported(net, entries) && forall i :: 0 <= i < |entries| ==> Describes(net, entries[i])
  {
    var w := Preorder(net, [root], {});
    var origins := Origins(w.entries);
    PreorderIsClosed(net, [root], {});
    assert w.seen - {} == w.seen;
    forall i | 0 <= i < |w.entries|
      ensures Describes(net, w.entries[i])
      ensures forall t :: t in w.entries[i].tools ==> (t in origins <==> net.isExternal(t) || t in net.specs)
    {
      assert origins[i] in origins && w.entries[i] == EntryFor(net, origins[i]);
      EntryDescribes(net, origins[i]);
      forall t | t in w.entries[i].tools ensures t in origins <==> net.isExternal(t) || t in net.specs {
        assert t in ReportedTools(net, origins[i]) && origins[i] in w.seen && (t in origins <==> t in w.seen);
        assert t in origins ==> Reportable(net, t);
      }
    }
  }

  function Elements(names: seq<string>): set<string> {
    set n | n in names
  }

  /** `names[k]` is the first name of the list that is known to the network and not in `before`. */
  predicate FirstNew(net: Network, names: seq<string>, k: nat, before: set<string>) {
    && k < |names| && (net.isExternal(names[k]) || names[k] in net.specs) && names[k] !in before
    && forall j :: 0 <= j < k ==> names[j] in before || !(net.isExternal(names[j]) || names[j] in net.specs)
  }

  /** Depth first: the first tool of an entry that is not reported yet has the very next entry. */
  ghost predicate DepthFirst(net: Network, entries: seq<Entry>, seen: set<string>) {
    forall i: nat :: i < |entries| ==> FollowedByTool(net, entries, i, seen)
  }

  ghost predicate FollowedByTool(net: Network, entries: seq<Entry>, i: nat, seen: set<string>)
    requires i < |entries|
  {
    forall k: nat :: FirstNew(net, entries[i].tools, k, seen + Elements(Origins(entries)[..i + 1])) ==>
      i + 1 < |entries| && entries[i + 1].origin == entries[i].tools[k]
  }

  lemma {:induction false} FirstNewIsNext(net: Network, stack: seq<string>, seen: set<string>, k: nat)
    requires Preorder(net, stack, seen).Walk? && FirstNew(net, stack, k, seen)
    ensures var entries := Preorder(net, stack, seen).entries; entries != [] && entries[0].origin == stack[k]
    decreases |stack|
  {
    if k > 0 {
      assert stack[0] in seen || !Reportable(net, stack[0]);
      FirstNewIsNext(net, stack[1..], seen, k - 1);
    }
  }

  lemma {:induction false} PreorderIsDepthFirst(net: Network, stack: seq<string>, seen: set<string>)
    requires Preorder(net, stack, seen).Walk?
    ensures DepthFirst(net, Preorder(net, stack, seen).entries, seen)
    decreases net.specs.Keys - seen, |stack|
  {
    if stack == [] {
    } else {
      var name, rest := stack[0], stack[1..];
      if name in seen || !Reportable(net, name) {
        PreorderIsDepthFirst(net, rest, seen);
      } else {
        assert name in net.specs.Keys || net.specs.Keys - (seen + {name}) == net.specs.Keys - seen;
        var tools := ReportedTools(net, name);
        PreorderIsDepthFirst(net, tools + rest, seen + {name});
        DepthFirstCons(net, name, rest, seen);
      }
    }
  }

  lemma HeadIsFollowed(net: Network, name: string, rest: seq<string>, seen: set<string>, below: seq<Entry>)
    requires Preorder(net, ReportedTools(net, name) + rest, seen + {name}).Walk?
    requires Preorder(net, ReportedTools(net, name) + rest, seen + {name}).entries == below
    requires EntryFor(net, name).tools == ReportedTools(net, name)
    ensures FollowedByTool(net, [EntryFor(net, name)] + below, 0, seen)
  {
    var entries, tools := [EntryFor(net, name)] + below, ReportedTools(net, name);
    var before := seen + Elements(Origins(entries)[..0 + 1]);
    OriginsCons(net, name, below);
    ElementsCons(name, Origins(below), seen, 0);
    assert Elements(Origins(below)[..0]) == {};
    assert before == seen + {name};
    forall k: nat | FirstNew(net, entries[0].tools, k, before)
      ensures 1 < |entries| && entries[1].origin == entries[0].tools[k]
    {
      FirstNewAppend(net, tools, rest, k, before);
      FirstNewIsNext(net, tools + rest, before, k);
    }
  }

  lemma TailIsFollowed(net: Network, name: string, seen: set<string>, below: seq<Entry>, i: nat)
    requires i < |below| && FollowedByTool(net, below, i, seen + {name})
    ensures FollowedByTool(net, [EntryFor(net, name)] + below, i + 1, seen)
  {
    var entries := [EntryFor(net, name)] + below;
    OriginsCons(net, name, below);
    ElementsCons(name, Origins(below), seen, i + 1);
    var tools, before := below[i].tools, seen + Elements(Origins(entries)[..i + 1 + 1]);
    assert entries[i + 1] == below[i];
    forall k: nat | FirstNew(net, tools, k, before)
      ensures i + 2 < |entries| && entries[i + 2].origin == tools[k]
    {
      assert FirstNew(net, below[i].tools, k, (seen + {name}) + Elements(Origins(below)[..i + 1]));
      assert entries[i + 2] == below[i + 1];
    }
  }

  lemma DepthFirstCons(net: Network, name: string, rest: seq<string>, seen: set<string>)
    requires Reportable(net, name) && !Hidden(net, name) && name !in seen
    requires Preorder(net, ReportedTools(net, name) + rest, seen + {name}).Walk?
    requires DepthFirst(net, Preorder(net, ReportedTools(net, name) + rest, seen + {name}).entries, seen + {name})
    ensures var below := Preorder(net, ReportedTools(net, name) + rest, seen + {name}).entries;
            DepthFirst(net, [EntryFor(net, name)] + below, seen)
  {
    var below := Preorder(net, ReportedTools(net, name) + rest, seen + {name}).entries;
    var entries := [EntryFor(net, name)] + below;
    forall i: nat | i < |entries| ensures FollowedByTool(net, entries, i, seen) {
      if i == 0 {
        HeadIsFollowed(net, name, rest, seen, below);
      } else {
        assert FollowedByTool(net, below, i - 1, seen + {name});
        TailIsFollowed(net, name, seen, below, i - 1);
      }
    }
  }

  lemma FirstNewAppend(net: Network, names: seq<string>, rest: seq<string>, k: nat, before: set<string>)
    requires FirstNew(net, names, k, before)
    ensures FirstNew(net, names + rest, k, before) && (names + rest)[k] == names[k]
  {
  }

  lemma ElementsCons(name: string, origins: seq<string>, seen: set<string>, i: nat)
    requires i <= |origins|
    ensures seen + Elements(([name] + origins)[..i + 1]) == (seen + {name}) + Elements(origins[..i])
  {
    assert ([name] + origins)[..i + 1] == [name] + origins[..i];
    assert Elements([name] + origins[..i]) == {name} + Elements(origins[..i]);
  }

  /** The report of a network: it fails without a front man, and when a hidden node can be reached;
      otherwise it starts with the front man and has one entry for each reachable node, in
      depth-first preorder, and every entry describes its node. */
  method ReportNetworkConnectivity(net: Network) returns (r: Result<seq<Entry>, Error>)
    ensures !HasFrontMan(net) ==> r == Failure(NoFrontMan)
    ensures HasFrontMan(net) ==> (r.Success? <==> NothingHidden(net, net.order[0]))
    ensures HasFrontMan(net) && r.Failure? ==> r.error == NoSpecToDisplay
    ensures r.Success? ==>
              var root, origins := net.order[0], Origins(r.value);
              && Preorder(net, [root], {}).Walk? && r.value == Preorder(net, [root], {}).entries
              && r.value != [] && origins[0] == root
              && (forall n :: n in origins <==> Reachable(net, root, n))
              && (forall i, j :: 0 <= i < j < |origins| ==> origins[i] != origins[j])
              && EveryToolReported(net, r.value) && DepthFirst(net, r.value, {})
              && (forall i :: 0 <= i < |r.value| ==> Describes(net, r.value[i]))
  {
    var frontMan := FindFrontMan(net);
    if frontMan.Failure? {
      return Failure(NoFrontMan);
    }
    var root := frontMan.value;
    var reported := new ReportedAgents();
    r := ReportNodeConnectivity(net, root, reported);
    PreorderReportsReachable(net, root);
    ReachableHasSpec(net, root);
    if r.Success? {
      PreorderIsClosed(net, [root], {});
      ReportIsComplete(net, root);
      PreorderIsDepthFirst(net, [root], {});
    }
  }

  lemma ReachableHasSpec(net: Network, root: string)
    ensures forall n :: Reachable(net, root, n) ==> net.isExternal(n) || n in net.specs
  {
    forall n | Reachable(net, root, n) ensures net.isExternal(n) || n in net.specs {
      var p :| IsPath(net, p) && p[0] == root && p[|p| - 1] == n;
    }
  }

  // ---------- Where the class comment and the code differ ----------

  const LEAF := AgentSpec(true, [], NoArgsTools, None, None, true, false, None)

  /** The comment promises that a hidden front man is reported with an empty tool list; the call
      fails instead. */
  lemma HiddenFrontManIsNotReported()
    ensures var net := RawNetwork(["a"], map["a" := LEAF.(allowConnectivity := false)], map[], _ => false);
            FindFrontMan(net) == Success("a") && Preorder(net, ["a"], {}).Crashed?
  {
  }

  /** A coded tool that takes its only tool in a dictionary is reported without it, and the tool is
      not reported at all. */
  lemma DictionaryToolIsNotReported()
    ensures var net := RawNetwork(["a", "b"], map["a" := LEAF.(argsTools := ArgsToolDict(["b"])), "b" := LEAF], map[],
        _ => false);
            Preorder(net, ["a"], {}) == Walk([Entry("a", [], "llm_agent", None)], {"a"}) && Reportable(net, "b")
  {
    var net := RawNetwork(["a", "b"], map["a" := LEAF.(argsTools := ArgsToolDict(["b"])), "b" := LEAF], map[],
        _ => false);
    assert ReportedTools(net, "a") == [];
    PreorderOfLeaf(net, "a", {});
  }

  lemma PreorderOfLeaf(net: Network, name: string, seen: set<string>)
    requires Reportable(net, name) && !Hidden(net, name) && ReportedTools(net, name) == [] && name !in seen
    ensures Preorder(net, [name], seen) == Walk([EntryFor(net, name)], seen + {name})
  {
    PreorderOfOne(net, name, seen);
  }

  // ---------- Breadth-first order ----------

  /** The traversal that the comments describe: the same, but new tools wait behind all others. */
  function BreadthFirst(net: Network, queue: seq<string>, seen: set<string>): Walk
    decreases net.specs.Keys - seen, |queue|
  {
    if queue == [] then Walk([], seen)
    else
      var name, rest := queue[0], queue[1..];
      if name in seen || !Reportable(net, name) then BreadthFirst(net, rest, seen)
      else if Hidden(net, name) then Crashed
      else
        assert name in net.specs.Keys || net.specs.Keys - (seen + {name}) == net.specs.Keys - seen;
        match BreadthFirst(net, rest + ReportedTools(net, name), seen + {name})
        case Crashed => Crashed
        case Walk(entries, after) => Walk([EntryFor(net, name)] + entries, after)
  }

  lemma BreadthFirstStep(net: Network, name: string, rest: seq<string>, seen: set<string>)
    requires Reportable(net, name) && !Hidden(net, name) && name !in seen
    ensures BreadthFirst(net, [name] + rest, seen) ==
            match BreadthFirst(net, rest + ReportedTools(net, name), seen + {name})
            case Crashed => Crashed
            case Walk(entries, after) => Walk([EntryFor(net, name)] + entries, after)
  {
    assert ([name] + rest)[1..] == rest;
  }

  /** The tool lists of some nodes, one after the other. */
  function Mentions(net: Network, nodes: seq<string>): seq<string> {
    if nodes == [] then [] else ReportedTools(net, nodes[0]) + Mentions(net, nodes[1..])
  }

  /** The new reportable names of a list, at their first occurrences. */
  function FirstMentions(net: Network, names: seq<string>, seen: set<string>): seq<string> {
    if names == [] then []
    else if names[0] in seen || !Reportable(net, names[0]) then FirstMentions(net, names[1..], seen)
    else [names[0]] + FirstMentions(net, names[1..], seen + {names[0]})
  }

  lemma MentionsCons(net: Network, name: string, nodes: seq<string>)
    ensures Mentions(net, [name] + nodes) == ReportedTools(net, name) + Mentions(net, nodes)
  {
    assert ([name] + nodes)[1..] == nodes;
  }

  /** Taking a name off the front of what is mentioned. */
  lemma FirstMentionsCons(net: Network, name: string, rest: seq<string>, more: seq<string>, seen: set<string>)
    ensures FirstMentions(net, [name] + rest + more, seen) ==
            if name in seen || !Reportable(net, name) then FirstMentions(net, rest + more, seen)
            else [name] + FirstMentions(net, rest + more, seen + {name})
  {
    Assoc([name], rest, more);
    assert ([name] + rest + more)[1..] == rest + more;
  }

  /** A breadth-first walk lists names in the order in which its own tool lists mention them. */
  lemma {:induction false} BreadthFirstFollowsMentions(net: Network, queue: seq<string>, seen: set<string>)
    requires BreadthFirst(net, queue, seen).Walk?
    ensures var origins := Origins(BreadthFirst(net, queue, seen).entries);
            origins == FirstMentions(net, queue + Mentions(net, origins), seen)
    decreases net.specs.Keys - seen, |queue|
  {
    if queue == [] {
      assert queue + Mentions(net, []) == [];
    } else {
      var name, rest := queue[0], queue[1..];
      assert queue == [name] + rest;
      var origins := Origins(BreadthFirst(net, queue, seen).entries);
      FirstMentionsCons(net, name, rest, Mentions(net, origins), seen);
      if name in seen || !Reportable(net, name) {
        BreadthFirstFollowsMentions(net, rest, seen);
      } else {
        assert name in net.specs.Keys || net.specs.Keys - (seen + {name}) == net.specs.Keys - seen;
        var tools := ReportedTools(net, name);
        BreadthFirstFollowsMentions(net, rest + tools, seen + {name});
        var below := BreadthFirst(net, rest + tools, seen + {name}).entries;
        OriginsCons(net, name, below);
        MentionsCons(net, name, Origins(below));
        Assoc(rest, tools, Mentions(net, Origins(below)));
      }
    }
  }

  lemma OriginsCons(net: Network, name: string, entries: seq<Entry>)
    ensures Origins([EntryFor(net, name)] + entries) == [name] + Origins(entries)
  {
    assert EntryFor(net, name).origin == name;
  }

  /** Every node of the list is waiting, or a tool of a node before it. */
  predicate Introduced(net: Network, waiting: set<string>, origins: seq<string>)
    decreases |origins|
  {
    origins == []
    || (origins[0] in waiting && Introduced(net, waiting + Elements(ReportedTools(net, origins[0])), origins[1..]))
  }

  /** Names that are not in the list need not wait. */
  lemma {:induction false} IntroducedBy(net: Network, waiting: set<string>, others: set<string>, origins: seq<string>)
    requires Introduced(net, waiting, origins) && forall n :: n in waiting && n in origins ==> n in others
    ensures Introduced(net, others, origins)
    decreases |origins|
  {
    if origins == [] {
    } else {
      assert origins[0] in origins && forall n :: n in origins[1..] ==> n in origins;
      var tools := Elements(ReportedTools(net, origins[0]));
      IntroducedBy(net, waiting + tools, others + tools, origins[1..]);
    }
  }

  lemma IntroducedCons(net: Network, waiting: set<string>, name: string, origins: seq<string>)
    ensures Introduced(net, waiting, [name] + origins) <==>
            name in waiting && Introduced(net, waiting + Elements(ReportedTools(net, name)), origins)
  {
    assert ([name] + origins)[1..] == origins;
  }

  /** Depth-first walks introduce their nodes, too. */
  lemma {:induction false} PreorderIntroduces(net: Network, stack: seq<string>, seen: set<string>)
    requires Preorder(net, stack, seen).Walk?
    ensures Introduced(net, Elements(stack), Origins(Preorder(net, stack, seen).entries))
    decreases net.specs.Keys - seen, |stack|
  {
    if stack == [] {
    } else {
      var name, rest := stack[0], stack[1..];
      assert forall x :: x in rest ==> x in stack;
      if name in seen || !Reportable(net, name) {
        PreorderIntroduces(net, rest, seen);
        IntroducedBy(net, Elements(rest), Elements(stack), Origins(Preorder(net, rest, seen).entries));
      } else {
        assert name in net.specs.Keys || net.specs.Keys - (seen + {name}) == net.specs.Keys - seen;
        var tools := ReportedTools(net, name);
        var below := Preorder(net, tools + rest, seen + {name}).entries;
        PreorderIntroduces(net, tools + rest, seen + {name});
        IntroducedBy(net, Elements(tools + rest), Elements(stack) + Elements(tools), Origins(below));
        OriginsCons(net, name, below);
        IntroducedCons(net, Elements(stack), name, Origins(below));
      }
    }
  }

  function Entries(net: Network, origins: seq<string>): (r: seq<Entry>)
    ensures |r| == |origins| && forall i :: 0 <= i < |origins| ==> r[i] == EntryFor(net, origins[i])
  {
    seq(|origins|, i requires 0 <= i < |origins| => EntryFor(net, origins[i]))
  }

  /** New names that can be reported, each once. */
  ghost predicate Fresh(net: Network, origins: seq<string>, seen: set<string>) {
    && (forall n :: n in origins ==> n !in seen && Reportable(net, n) && !Hidden(net, n))
    && (forall i, j :: 0 <= i < j < |origins| ==> origins[i] != origins[j])
  }

  lemma FreshTail(net: Network, name: string, below: seq<string>, seen: set<string>)
    requires Fresh(net, [name] + below, seen)
    ensures Fresh(net, below, seen + {name}) && name !in below && !Hidden(net, name)
  {
    var origins := [name] + below;
    assert origins[1..] == below && name in origins;
    forall n | n in below ensures n in origins && n != name {
      var i :| 0 <= i < |below| && below[i] == n;
      assert origins[i + 1] == n && origins[0] != origins[i + 1];
    }
  }

  /** The breadth-first walk is the only list of new, introduced names that follows its own
      mentions. */
  lemma {:induction false} MentionsDetermineBreadthFirst(net: Network, queue: seq<string>, seen: set<string>,
      origins: seq<string>)
    requires origins == FirstMentions(net, queue + Mentions(net, origins), seen)
    requires Introduced(net, Elements(queue), origins) && Fresh(net, origins, seen)
    ensures BreadthFirst(net, queue, seen) == Walk(Entries(net, origins), seen + Elements(origins))
    decreases net.specs.Keys - seen, |queue|
  {
    if queue == [] {
    } else {
      var name, rest := queue[0], queue[1..];
      assert queue == [name] + rest;
      FirstMentionsCons(net, name, rest, Mentions(net, origins), seen);
      if name in seen || !Reportable(net, name) {
        IntroducedBy(net, Elements(queue), Elements(rest), origins);
        MentionsDetermineBreadthFirst(net, rest, seen, origins);
      } else {
        var tools, below := ReportedTools(net, name), origins[1..];
        assert origins == [name] + below;
        assert name in net.specs.Keys || net.specs.Keys - (seen + {name}) == net.specs.Keys - seen;
        AfterVisit(net, name, rest, below, seen);
        MentionsDetermineBreadthFirst(net, rest + tools, seen + {name}, below);
        BreadthFirstStep(net, name, rest, seen);
        WalkCons(net, name, below, seen);
      }
    }
  }

  lemma WalkCons(net: Network, name: string, below: seq<string>, seen: set<string>)
    ensures Walk(Entries(net, [name] + below), seen + Elements([name] + below))
         == Walk([EntryFor(net, name)] + Entries(net, below), (seen + {name}) + Elements(below))
  {
    assert Entries(net, [name] + below) == [EntryFor(net, name)] + Entries(net, below);
    assert Elements([name] + below) == {name} + Elements(below);
    assert seen + ({name} + Elements(below)) == (seen + {name}) + Elements(below);
  }

  /** What holds of the nodes after a new one at the head of the queue. */
  lemma AfterVisit(net: Network, name: string, rest: seq<string>, below: seq<string>, seen: set<string>)
    requires below == FirstMentions(net, rest + Mentions(net, [name] + below), seen + {name})
    requires Introduced(net, Elements([name] + rest), [name] + below) && Fresh(net, [name] + below, seen)
    ensures var tools := ReportedTools(net, name);
            && below == FirstMentions(net, (rest + tools) + Mentions(net, below), seen + {name})
            && Introduced(net, Elements(rest + tools), below)
            && Fresh(net, below, seen + {name}) && !Hidden(net, name)
  {
    var tools := ReportedTools(net, name);
    FreshTail(net, name, below, seen);
    MentionsCons(net, name, below);
    Assoc(rest, tools, Mentions(net, below));
    IntroducedCons(net, Elements([name] + rest), name, below);
    IntroducedBy(net, Elements([name] + rest) + Elements(tools), Elements(rest + tools), below);
  }

  /** A report is in breadth-first order exactly when it lists its nodes in the order in which its
      own tool lists, read from the top, first mention them. */
  lemma ReportIsBreadthFirstIff(net: Network, root: string)
    requires Preorder(net, [root], {}).Walk?
    ensures var report := Preorder(net, [root], {}); var origins := Origins(report.entries);
            report == BreadthFirst(net, [root], {}) <==>
                origins == FirstMentions(net, [root] + Mentions(net, origins), {})
  {
    var report := Preorder(net, [root], {});
    var origins := Origins(report.entries);
    PreorderIsClosed(net, [root], {});
    PreorderIntroduces(net, [root], {});
    assert {} + Elements(origins) == report.seen;
    if report == BreadthFirst(net, [root], {}) {
      BreadthFirstFollowsMentions(net, [root], {});
    }
    if origins == FirstMentions(net, [root] + Mentions(net, origins), {}) {
      MentionsDetermineBreadthFirst(net, [root], {}, origins);
      assert Entries(net, origins) == report.entries;
    }
  }

  /** Nothing in the list can be reported. */
  predicate Unreportable(net: Network, names: seq<string>) {
    forall n :: n in names ==> !Reportable(net, n)
  }

  /** Of these names only the last may have tools that can be reported. */
  predicate OnlyLastBranches(net: Network, names: seq<string>) {
    |names| <= 1 || (Unreportable(net, ReportedTools(net, names[0])) && OnlyLastBranches(net, names[1..]))
  }

  lemma {:induction false} PreorderSkips(net: Network, junk: seq<string>, seen: set<string>)
    requires Unreportable(net, junk)
    ensures Preorder(net, junk, seen) == Walk([], seen)
  {
    if junk == [] {
    } else {
      assert junk[0] in junk && forall n :: n in junk[1..] ==> n in junk;
      PreorderSkips(net, junk[1..], seen);
    }
  }

  lemma {:induction false} BreadthFirstSkips(net: Network, a: seq<string>, junk: seq<string>, b: seq<string>,
      seen: set<string>)
    requires Unreportable(net, junk)
    ensures BreadthFirst(net, a + junk + b, seen) == BreadthFirst(net, a + b, seen)
    decreases net.specs.Keys - seen, |a + junk + b|
  {
    if a == [] {
      if junk == [] {
        assert a + junk + b == a + b;
      } else {
        assert junk[0] in junk && forall n :: n in junk[1..] ==> n in junk;
        assert (a + junk + b)[0] == junk[0] && (a + junk + b)[1..] == a + junk[1..] + b;
        BreadthFirstSkips(net, a, junk[1..], b, seen);
      }
    } else {
      var name, rest := a[0], a[1..];
      assert (a + junk + b)[1..] == rest + junk + b && (a + b)[1..] == rest + b;
      if name in seen || !Reportable(net, name) {
        BreadthFirstSkips(net, rest, junk, b, seen);
      } else {
        assert name in net.specs.Keys || net.specs.Keys - (seen + {name}) == net.specs.Keys - seen;
        var tools := ReportedTools(net, name);
        Assoc(rest + junk, b, tools);
        Assoc(rest, b, tools);
        BreadthFirstSkips(net, rest, junk, b + tools, seen + {name});
      }
    }
  }

  lemma JunkIsSkipped(net: Network, junk: seq<string>, rest: seq<string>, seen: set<string>)
    requires Unreportable(net, junk)
    ensures Preorder(net, junk + rest, seen) == Preorder(net, rest, seen)
    ensures BreadthFirst(net, rest + junk, seen) == BreadthFirst(net, rest, seen)
  {
    PreorderSkips(net, junk, seen);
    PreorderSplits(net, junk, rest, seen);
    if Preorder(net, rest, seen).Walk? {
      assert [] + Preorder(net, rest, seen).entries == Preorder(net, rest, seen).entries;
    }
    assert rest + junk + [] == rest + junk && rest + [] == rest;
    BreadthFirstSkips(net, rest, junk, [], seen);
  }

  /** Every node that can be reached has tools of which only the last branches. */
  ghost predicate ReachableOnlyLastBranch(net: Network, root: string) {
    forall n :: Reachable(net, root, n) ==> OnlyLastBranches(net, ReportedTools(net, n))
  }

  lemma {:induction false} OnlyLastBranchesFrom(net: Network, root: string, names: seq<string>, seen: set<string>)
    requires OnlyLastBranches(net, names) && ReachableOnlyLastBranch(net, root)
    requires forall n :: n in names && Reportable(net, n) ==> Reachable(net, root, n)
    ensures Preorder(net, names, seen) == BreadthFirst(net, names, seen)
    decreases net.specs.Keys - seen, |names|
  {
    if names == [] {
    } else {
      var name, rest := names[0], names[1..];
      assert name in names && forall n :: n in rest ==> n in names;
      if name in seen || !Reportable(net, name) {
        OnlyLastBranchesFrom(net, root, rest, seen);
      } else if !Hidden(net, name) {
        assert name in net.specs.Keys || net.specs.Keys - (seen + {name}) == net.specs.Keys - seen;
        var tools := ReportedTools(net, name);
        if rest == [] {
          assert tools + rest == tools && rest + tools == tools;
          ToolsAreReachable(net, root, name, rest);
          OnlyLastBranchesFrom(net, root, tools, seen + {name});
        } else {
          JunkIsSkipped(net, tools, rest, seen + {name});
          OnlyLastBranchesFrom(net, root, rest, seen + {name});
        }
      }
    }
  }

  /** A condition on the network alone: if in the tool list of every reachable node only the last
      tool has tools of its own to report, then the report is in breadth-first order, and fails
      where that would. */
  lemma OnlyLastBranchesIsBreadthFirst(net: Network, root: string)
    requires Reportable(net, root) && ReachableOnlyLastBranch(net, root)
    ensures Preorder(net, [root], {}) == BreadthFirst(net, [root], {})
  {
    assert IsPath(net, [root]);
    assert Reachable(net, root, root);
    OnlyLastBranchesFrom(net, root, [root], {});
  }

  /** An agent `a` with tools `b` and `c`, where `b` has the tool `d`; nothing is hidden. */
  predicate SmallTree(net: Network, a: string, b: string, c: string, d: string) {
    && a != b && a != c && a != d && b != c && b != d && c != d
    && Shown(net, a) && Shown(net, b) && Shown(net, c) && Shown(net, d)
    && ReportedTools(net, a) == [b, c] && ReportedTools(net, b) == [d]
    && ReportedTools(net, c) == [] && ReportedTools(net, d) == []
  }

  predicate Shown(net: Network, name: string) {
    Reportable(net, name) && !Hidden(net, name)
  }

  lemma ShapePreorder(net: Network, a: string, b: string, c: string, d: string, seen: set<string>)
    requires SmallTree(net, a, b, c, d) && a !in seen && b !in seen && c !in seen && d !in seen
    ensures Preorder(net, [a], seen)
         == Walk([EntryFor(net, a), EntryFor(net, b), EntryFor(net, d), EntryFor(net, c)], seen + {a} + {b} + {d} + {c})
  {
    var sa := seen + {a};
    var sb := sa + {b};
    var sd := sb + {d};
    PreorderOfLeaf(net, d, sb);
    PreorderOfOne(net, b, sa);
    assert Preorder(net, [b], sa) == Walk([EntryFor(net, b), EntryFor(net, d)], sd);
    PreorderOfLeaf(net, c, sd);
    assert [b] + [c] == [b, c];
    PreorderSplits(net, [b], [c], sa);
    PreorderOfOne(net, a, seen);
  }

  lemma BreadthFirstLeaf(net: Network, name: string, rest: seq<string>, seen: set<string>, below: seq<Entry>,
      after: set<string>)
    requires Shown(net, name) && name !in seen && ReportedTools(net, name) == []
    requires BreadthFirst(net, rest, seen + {name}) == Walk(below, after)
    ensures BreadthFirst(net, [name] + rest, seen) == Walk([EntryFor(net, name)] + below, after)
  {
    BreadthFirstStep(net, name, rest, seen);
    assert rest + [] == rest;
  }

  lemma BreadthFirstLeaves(net: Network, c: string, d: string, seen: set<string>)
    requires Shown(net, c) && Shown(net, d) && c != d && c !in seen && d !in seen
    requires ReportedTools(net, c) == [] && ReportedTools(net, d) == []
    ensures BreadthFirst(net, [c] + [d], seen) == Walk([EntryFor(net, c), EntryFor(net, d)], seen + {c} + {d})
  {
    var sc := seen + {c};
    BreadthFirstLeaf(net, d, [], sc, [], sc + {d});
    assert [d] + [] == [d] && [EntryFor(net, d)] + [] == [EntryFor(net, d)];
    BreadthFirstLeaf(net, c, [d], seen, [EntryFor(net, d)], sc + {d});
  }

  lemma ShapeBreadthFirst(net: Network, a: string, b: string, c: string, d: string, seen: set<string>)
    requires SmallTree(net, a, b, c, d) && a !in seen && b !in seen && c !in seen && d !in seen
    ensures BreadthFirst(net, [a], seen)
         == Walk([EntryFor(net, a), EntryFor(net, b), EntryFor(net, c), EntryFor(net, d)], seen + {a} + {b} + {c} + {d})
  {
    var sa := seen + {a};
    BreadthFirstLeaves(net, c, d, sa + {b});
    BreadthFirstStep(net, b, [c], sa);
    assert [b] + [c] == [b, c] && [a] + [] == [a] && [] + [b, c] == [b, c];
    BreadthFirstStep(net, a, [], seen);
  }

  /** The comment promises breadth-first order. In every network of this shape `d`, a tool of `b`,
      is reported before `c`, and in breadth-first order it would come after it. */
  lemma ReportIsNotBreadthFirst(net: Network, a: string, b: string, c: string, d: string)
    requires SmallTree(net, a, b, c, d)
    ensures Preorder(net, [a], {}).Walk? && Origins(Preorder(net, [a], {}).entries) == [a, b, d, c]
    ensures BreadthFirst(net, [a], {}).Walk? && Origins(BreadthFirst(net, [a], {}).entries) == [a, b, c, d]
  {
    ShapePreorder(net, a, b, c, d, {});
    ShapeBreadthFirst(net, a, b, c, d, {});
  }
}
