/** neuro_san/internals/network_providers/agent_network_storage.py

    The table of served agent networks and the listeners that are told how it changes. */
module NetworkStorage {

  /** An agent network: its spec and the name it is registered under. */
  datatype AgentNetwork = AgentNetwork(spec: string, name: string)

  datatype Event = Added(name: string) | Modified(name: string) | Removed(name: string)

  // ---------- What a listener knows ----------

  function Apply(known: set<string>, e: Event): set<string> {
    match e
    case Removed(name) => known - {name}
    case Added(name) => known + {name}
    case Modified(name) => known + {name}
  }

  /** The names a listener has after replaying the events in order. */
  function Replay(known: set<string>, events: seq<Event>): set<string> {
    if events == [] then known else Apply(Replay(known, events[..|events| - 1]), events[|events| - 1])
  }

  lemma {:induction false} ReplayConcat(known: set<string>, a: seq<Event>, b: seq<Event>)
    ensures Replay(known, a + b) == Replay(Replay(known, a), b)
  {
    if b == [] {
      assert a + b == a;
    } else {
      ReplayConcat(known, a, b[..|b| - 1]);
      assert (a + b)[..|a + b| - 1] == a + b[..|b| - 1];
    }
  }

  function Names(events: seq<Event>): set<string> {
    set e | e in events :: e.name
  }

  /** Events that only add, or only remove, have the same effect the second time. */
  lemma {:induction false} ReplayArrivals(known: set<string>, events: seq<Event>)
    requires forall e :: e in events ==> !e.Removed?
    ensures Replay(known, events) == known + Names(events)
  {
    if events == [] {
    } else {
      var front := events[..|events| - 1];
      ReplayArrivals(known, front);
      assert events == front + [events[|events| - 1]];
      assert Names(events) == Names(front) + {events[|events| - 1].name};
    }
  }

  lemma {:induction false} ReplayRemovals(known: set<string>, events: seq<Event>)
    requires forall e :: e in events ==> e.Removed?
    ensures Replay(known, events) == known - Names(events)
  {
    if events == [] {
    } else {
      var front := events[..|events| - 1];
      ReplayRemovals(known, front);
      assert events[|events| - 1] in events;
      assert events == front + [events[|events| - 1]];
      assert Names(events) == Names(front) + {events[|events| - 1].name};
    }
  }

  class Listener {
    var events: seq<Event>

    constructor ()
      ensures events == []
    {
      events := [];
    }

    function Known(): set<string>
      reads this
    {
      Replay({}, events)
    }

    method Notify(e: Event)
      modifies this
      ensures events == old(events) + [e]
    {
      events := events + [e];
    }
  }

  /** Tell every listener every event. A listener that is registered twice is told twice. */
  method NotifyAll(listeners: seq<Listener>, events: seq<Event>, ghost before: set<string>)
    requires Replay(Replay(before, events), events) == Replay(before, events)
    modifies listeners
    ensures forall l :: l in listeners && old(l.Known()) == before ==> l.Known() == Replay(before, events)
    ensures forall l :: l in listeners && multiset(listeners)[l] == 1 ==> l.events == old(l.events) + events
  {
    ghost var after := Replay(before, events);
    for i := 0 to |listeners|
      invariant forall l :: l in listeners && l !in listeners[..i] ==> l.events == old(l.events)
      invariant forall l :: l in listeners[..i] && old(l.Known()) == before ==> l.Known() == after
      invariant forall l :: l in listeners[..i] && multiset(listeners[..i])[l] == 1 ==>
          l.events == old(l.events) + events
    {
      var listener := listeners[i];
      assert listeners[..i + 1] == listeners[..i] + [listener];
      ghost var start := listener.events;
      label Before:
      for j := 0 to |events|
        invariant listener.events == start + events[..j]
        invariant forall l :: l in listeners && l != listener ==> l.events == old@Before(l.events)
      {
        listener.Notify(events[j]);
        assert events[..j + 1] == events[..j] + [events[j]];
      }
      assert events[..|events|] == events;
      ReplayConcat({}, start, events);
    }
    assert listeners[..|listeners|] == listeners;
  }

  /** The storage of the service. Python's `listeners` list may hold a listener twice. */
  class AgentNetworkStorage {
    var agentsTable: map<string, AgentNetwork>
    var listeners: seq<Listener>

    constructor ()
      ensures agentsTable == map[] && listeners == []
    {
      agentsTable := map[];
      listeners := [];
    }

    /** The listener would rebuild exactly the names in the table. */
    ghost predicate InSync(l: Listener)
      reads this, l
    {
      l.Known() == agentsTable.Keys
    }

    /** A fresh listener of an empty storage is in sync. */
    method AddListener(listener: Listener)
      modifies this`listeners
      ensures listeners == old(listeners) + [listener]
    {
      listeners := listeners + [listener];
    }

    method RemoveListener(listener: Listener)
      modifies this`listeners
      ensures listener !in old(listeners) ==> listeners == old(listeners)
      ensures listener in old(listeners) ==>
                exists i :: 0 <= i < |old(listeners)| && old(listeners)[i] == listener &&
                    listener !in old(listeners)[..i]
                            && listeners == old(listeners)[..i] + old(listeners)[i + 1..]
    {
      for i := 0 to |listeners|
        invariant listener !in listeners[..i]
        invariant listeners == old(listeners)
      {
        if listeners[i] == listener {
          listeners := listeners[..i] + listeners[i + 1..];
          return;
        }
      }
      assert listeners[..|listeners|] == listeners;
    }

    method AddAgentNetwork(agentName: string, agentNetwork: AgentNetwork)
      modifies this`agentsTable, listeners
      ensures agentsTable == old(agentsTable)[agentName := agentNetwork]
      ensures forall l :: l in listeners && old(InSync(l)) ==> InSync(l)
      ensures forall l :: l in listeners && multiset(listeners)[l] == 1 ==>
                l.events == old(l.events)
                    + [if agentName in old(agentsTable) then Modified(agentName) else Added(agentName)]
    {
      var isNew := agentName !in agentsTable;
      ghost var before := agentsTable.Keys;
      agentsTable := agentsTable[agentName := agentNetwork];
      var event := if isNew then Added(agentName) else Modified(agentName);
      ReplayArrivals(before, [event]);
      ReplayArrivals(Replay(before, [event]), [event]);
      assert Names([event]) == {agentName};
      NotifyAll(listeners, [event], before);
    }

    method RemoveAgentNetwork(agentName: string)
      modifies this`agentsTable, listeners
      ensures agentsTable == old(agentsTable) - {agentName}
      ensures forall l :: l in listeners && old(InSync(l)) ==> InSync(l)
      ensures forall l :: l in listeners && multiset(listeners)[l] == 1 ==>
          l.events == old(l.events) + [Removed(agentName)]
    {
      ghost var before := agentsTable.Keys;
      agentsTable := agentsTable - {agentName};
      var event := Removed(agentName);
      ReplayRemovals(before, [event]);
      ReplayRemovals(Replay(before, [event]), [event]);
      assert Names([event]) == {agentName};
      NotifyAll(listeners, [event], before);
    }

    /** Replace the whole collection, one agent after another in whatever order a set gives. */
    method SetupAgentNetworks(agentNetworks: map<string, AgentNetwork>)
      modifies this`agentsTable, listeners
      ensures agentsTable == agentNetworks
      ensures forall l :: l in listeners && old(InSync(l)) ==> InSync(l)
    {
      var toRemove := agentsTable.Keys - agentNetworks.Keys;
      while toRemove != {}
        invariant forall name :: name in toRemove <==> name in agentsTable && name !in agentNetworks
        invariant forall l :: l in listeners && old(InSync(l)) ==> InSync(l)
      {
        var agentName :| agentName in toRemove;
        RemoveAgentNetwork(agentName);
        toRemove := toRemove - {agentName};
      }
      var toAdd := agentNetworks.Keys;
      while toAdd != {}
        invariant toAdd <= agentNetworks.Keys && agentsTable.Keys <= agentNetworks.Keys
        invariant forall name :: name in agentNetworks && name !in toAdd ==>
            name in agentsTable && agentsTable[name] == agentNetworks[name]
        invariant forall l :: l in listeners && old(InSync(l)) ==> InSync(l)
      {
        var agentName :| agentName in toAdd;
        AddAgentNetwork(agentName, agentNetworks[agentName]);
        toAdd := toAdd - {agentName};
      }
    }
  }

  // ---------- Any sequence of operations ----------

  datatype Operation =
    | AddOne(name: string, network: AgentNetwork)
    | RemoveOne(name: string)
    | Setup(networks: map<string, AgentNetwork>)

  function AfterOne(table: map<string, AgentNetwork>, op: Operation): map<string, AgentNetwork> {
    match op
    case AddOne(name, network) => table[name := network]
    case RemoveOne(name) => table - {name}
    case Setup(networks) => networks
  }

  function AfterAll(table: map<string, AgentNetwork>, ops: seq<Operation>): map<string, AgentNetwork> {
    if ops == [] then table else AfterOne(AfterAll(table, ops[..|ops| - 1]), ops[|ops| - 1])
  }

  /** A listener that is there from the start knows exactly the names in the table after every
      sequence of operations. */
  method Follow(ops: seq<Operation>) returns (storage: AgentNetworkStorage, listener: Listener)
    ensures storage.agentsTable == AfterAll(map[], ops)
    ensures listener in storage.listeners && listener.Known() == storage.agentsTable.Keys
  {
    storage := new AgentNetworkStorage();
    listener := new Listener();
    storage.AddListener(listener);
    for i := 0 to |ops|
      invariant storage.listeners == [listener] && storage.InSync(listener)
      invariant storage.agentsTable == AfterAll(map[], ops[..i])
    {
      assert ops[..i + 1][..i] == ops[..i];
      match ops[i]
      case AddOne(name, network) => storage.AddAgentNetwork(name, network);
      case RemoveOne(name) => storage.RemoveAgentNetwork(name);
      case Setup(networks) => storage.SetupAgentNetworks(networks);
    }
    assert ops[..|ops|] == ops;
  }
}
