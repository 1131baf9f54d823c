/** neuro_san/internals/network_providers/expiring_agent_network_storage.py

    A cache of agent networks whose reservations expire, in front of an optional base storage
    that is written first and read on a miss. Each operation happens at one time `now`. */
module ExpiringStorage {
  import opened Wrappers
  import opened NetworkStorage

  datatype Reservation = Reservation(id: string, expiration: real)

  /** One pair of the dictionary given to add_reservations. */
  datatype Deployment = Deployment(reservation: Reservation, spec: string)

  datatype Stored = Stored(reservation: Reservation, network: AgentNetwork)

  predicate IsExpired(r: Reservation, now: real) {
    now > r.expiration
  }

  // ---------- The reference: a table of everything that was ever reserved ----------

  function AddAll(table: map<string, Stored>, batch: seq<Deployment>): map<string, Stored> {
    if batch == [] then table
    else
      var d := batch[|batch| - 1];
      AddAll(table, batch[..|batch| - 1])[
        d.reservation.id := Stored(d.reservation, AgentNetwork(d.spec, d.reservation.id))]
  }

  function Ids(batch: seq<Deployment>): set<string> {
    set d | d in batch :: d.reservation.id
  }

  lemma IdsSnoc(batch: seq<Deployment>)
    requires batch != []
    ensures Ids(batch) == Ids(batch[..|batch| - 1]) + {batch[|batch| - 1].reservation.id}
  {
    assert batch == batch[..|batch| - 1] + [batch[|batch| - 1]];
  }

  /** A batch decides its own names, whatever table it is added to, and leaves the others. */
  lemma {:induction false} AddAllDecides(a: map<string, Stored>, b: map<string, Stored>, batch: seq<Deployment>)
    ensures AddAll(a, batch).Keys == a.Keys + Ids(batch) && AddAll(b, batch).Keys == b.Keys + Ids(batch)
    ensures forall n :: n in Ids(batch) ==> AddAll(a, batch)[n] == AddAll(b, batch)[n]
    ensures forall n :: n in a && n !in Ids(batch) ==> AddAll(a, batch)[n] == a[n]
    ensures forall n :: n in b && n !in Ids(batch) ==> AddAll(b, batch)[n] == b[n]
  {
    if batch == [] {
    } else {
      AddAllDecides(a, b, batch[..|batch| - 1]);
      IdsSnoc(batch);
    }
  }

  /** The last entry of its name in a batch. */
  predicate Latest(batch: seq<Deployment>, i: nat) {
    i < |batch| && forall j :: i < j < |batch| ==> batch[j].reservation.id != batch[i].reservation.id
  }

  /** The last entry of a name in a batch is what the table has for it afterwards. */
  lemma {:induction false} LatestWins(table: map<string, Stored>, batch: seq<Deployment>, i: nat)
    requires Latest(batch, i)
    ensures var id := batch[i].reservation.id;
            id in AddAll(table, batch) &&
            AddAll(table, batch)[id] == Stored(batch[i].reservation, AgentNetwork(batch[i].spec, id))
  {
    var k := |batch| - 1;
    if i < k {
      LatestWins(table, batch[..k], i);
    }
  }

  /** The two tables of a cache as one. */
  function Joined(agents: map<string, AgentNetwork>, reservations: map<string, Reservation>): map<string, Stored> {
    map n | n in agents && n in reservations :: Stored(reservations[n], agents[n])
  }

  /** `part` holds entries of `truth` only. */
  ghost predicate PartOf(part: map<string, Stored>, truth: map<string, Stored>) {
    forall n :: n in part ==> n in truth && truth[n] == part[n]
  }

  /** `part` still has every entry of `truth` that has not expired. */
  ghost predicate HasCurrent(part: map<string, Stored>, truth: map<string, Stored>, now: real) {
    forall n :: n in truth && now <= truth[n].reservation.expiration ==> n in part
  }

  lemma BatchKeepsParts(part: map<string, Stored>, truth: map<string, Stored>, batch: seq<Deployment>, now: real)
    ensures PartOf(part, truth) ==> PartOf(AddAll(part, batch), AddAll(truth, batch))
    ensures PartOf(part, truth) && HasCurrent(part, truth, now) ==>
        HasCurrent(AddAll(part, batch), AddAll(truth, batch), now)
  {
    AddAllDecides(part, truth, batch);
  }

  lemma AddAllSnoc(table: map<string, Stored>, batch: seq<Deployment>, i: nat)
    requires i < |batch|
    ensures var d := batch[i];
            AddAll(table, batch[..i + 1]) ==
            AddAll(table, batch[..i])[d.reservation.id := Stored(d.reservation, AgentNetwork(d.spec, d.reservation.id))]
    ensures Ids(batch[..i + 1]) == Ids(batch[..i]) + {batch[i].reservation.id}
  {
    assert batch[..i + 1][..i] == batch[..i];
    IdsSnoc(batch[..i + 1]);
  }

  lemma JoinedUpdate(agents: map<string, AgentNetwork>, reservations: map<string, Reservation>, name: string, s: Stored)
    ensures Joined(agents[name := s.network], reservations[name := s.reservation])
        == Joined(agents, reservations)[name := s]
  {
  }

  // ---------- Announcing a batch ----------

  /** The names of a batch that were not known, at their first occurrence in the batch. */
  function NewNames(known: set<string>, batch: seq<Deployment>): seq<string> {
    if batch == [] then []
    else
      var front, name := batch[..|batch| - 1], batch[|batch| - 1].reservation.id;
      NewNames(known, front) + (if name in known + Ids(front) then [] else [name])
  }

  function KnownNames(known: set<string>, batch: seq<Deployment>): seq<string> {
    if batch == [] then []
    else
      var front, name := batch[..|batch| - 1], batch[|batch| - 1].reservation.id;
      KnownNames(known, front) + (if name in known + Ids(front) then [name] else [])
  }

  lemma NamesSnoc(known: set<string>, batch: seq<Deployment>, i: nat)
    requires i < |batch|
    ensures var name, seen := batch[i].reservation.id, known + Ids(batch[..i]);
            && NewNames(known, batch[..i + 1]) == NewNames(known, batch[..i]) + (if name in seen then [] else [name])
            && KnownNames(known, batch[..i + 1]) == KnownNames(known, batch[..i])
                + (if name in seen then [name] else [])
  {
    assert batch[..i + 1][..i] == batch[..i];
  }

  /** The names announced as new are those of the batch that were not known, each once; every other
      entry of the batch is announced as a change. */
  lemma {:induction false} NamesAreSplit(known: set<string>, batch: seq<Deployment>)
    ensures forall n :: n in NewNames(known, batch) <==> n in Ids(batch) && n !in known
    ensures var added := NewNames(known, batch); forall i, j :: 0 <= i < j < |added| ==> added[i] != added[j]
    ensures |NewNames(known, batch)| + |KnownNames(known, batch)| == |batch|
    ensures forall n :: n in KnownNames(known, batch) ==> n in Ids(batch)
  {
    if batch == [] {
    } else {
      NamesAreSplit(known, batch[..|batch| - 1]);
      IdsSnoc(batch);
    }
  }

  lemma IdsJoin(a: seq<Deployment>, b: seq<Deployment>)
    ensures Ids(a + b) == Ids(a) + Ids(b)
  {
  }

  /** Names are announced in the order of the batch: what comes later is told apart from what is
      known by then. */
  lemma {:induction false} NamesJoin(known: set<string>, a: seq<Deployment>, b: seq<Deployment>)
    ensures NewNames(known, a + b) == NewNames(known, a) + NewNames(known + Ids(a), b)
    ensures KnownNames(known, a + b) == KnownNames(known, a) + KnownNames(known + Ids(a), b)
    ensures |a| == 1 ==>
              var name := a[0].reservation.id;
              && NewNames(known, a) == (if name in known then [] else [name])
              && KnownNames(known, a) == if name in known then [name] else []
  {
    if b == [] {
      assert a + b == a;
    } else {
      var front, last := b[..|b| - 1], b[|b| - 1];
      var name, seen := last.reservation.id, known + Ids(a + front);
      NamesJoin(known, a, front);
      assert (a + b)[..|a + b| - 1] == a + front && (a + b)[|a + b| - 1] == last;
      IdsJoin(a, front);
      assert seen == (known + Ids(a)) + Ids(front);
      Assoc(NewNames(known, a), NewNames(known + Ids(a), front), if name in seen then [] else [name]);
      Assoc(KnownNames(known, a), KnownNames(known + Ids(a), front), if name in seen then [name] else []);
    }
    if |a| == 1 { assert a[..0] == []; }
  }

  function Events(make: string -> Event, names: seq<string>): seq<Event> {
    seq(|names|, i requires 0 <= i < |names| => make(names[i]))
  }

  function AnnounceBatch(known: set<string>, batch: seq<Deployment>): seq<Event> {
    Events(n => Added(n), NewNames(known, batch)) + Events(n => Modified(n), KnownNames(known, batch))
  }

  lemma {:induction false} BatchNames(known: set<string>, batch: seq<Deployment>)
    ensures forall n :: n in NewNames(known, batch) || n in KnownNames(known, batch) <==> n in Ids(batch)
  {
    if batch == [] {
    } else {
      BatchNames(known, batch[..|batch| - 1]);
      IdsSnoc(batch);
    }
  }

  lemma NamesOfEvents(make: string -> Event, names: seq<string>)
    requires forall n :: make(n).name == n
    ensures Names(Events(make, names)) == set n | n in names
  {
    var events := Events(make, names);
    forall n | n in names ensures n in Names(events) {
      var i :| 0 <= i < |names| && names[i] == n;
      assert events[i].name == n && events[i] in events;
    }
  }

  lemma NamesOfBoth(a: seq<Event>, b: seq<Event>)
    ensures Names(a + b) == Names(a) + Names(b)
  {
    assert forall e :: e in a + b <==> e in a || e in b;
  }

  lemma AnnouncementAddsBatch(known: set<string>, batch: seq<Deployment>)
    ensures Replay(known, AnnounceBatch(known, batch)) == known + Ids(batch)
    ensures Replay(known + Ids(batch), AnnounceBatch(known, batch)) == known + Ids(batch)
  {
    var news, olds := NewNames(known, batch), KnownNames(known, batch);
    BatchNames(known, batch);
    NamesOfEvents(n => Added(n), news);
    NamesOfEvents(n => Modified(n), olds);
    NamesOfBoth(Events(n => Added(n), news), Events(n => Modified(n), olds));
    ReplayArrivals(known, AnnounceBatch(known, batch));
    ReplayArrivals(known + Ids(batch), AnnounceBatch(known, batch));
  }

  lemma AnnouncementRemoves(known: set<string>, names: seq<string>)
    ensures var events := Events(n => Removed(n), names); var rest := known - (set n | n in names);
            Replay(known, events) == rest && Replay(rest, events) == rest
  {
    var events := Events(n => Removed(n), names);
    NamesOfEvents(n => Removed(n), names);
    ReplayRemovals(known, events);
    ReplayRemovals(known - (set n | n in names), events);
  }

  // ---------- The base storage ----------

  class BaseStorage {
    var table: map<string, Stored>

    method AddReservations(batch: seq<Deployment>)
      modifies this
      ensures table == AddAll(old(table), batch)
    {
      for i := 0 to |batch|
        invariant table == AddAll(old(table), batch[..i])
      {
        var d := batch[i];
        assert batch[..i + 1][..i] == batch[..i];
        table := table[d.reservation.id := Stored(d.reservation, AgentNetwork(d.spec, d.reservation.id))];
      }
      assert batch[..|batch|] == batch;
    }

    /** An expired entry may or may not be handed out; a current one always is. */
    method GetOneReservation(name: string, now: real) returns (r: Option<Stored>)
      ensures r.Some? ==> name in table && r.value == table[name]
      ensures name in table && now <= table[name].reservation.expiration ==> r.Some?
    {
      r := if name in table then Some(table[name]) else None;
    }

    /** The base removes what has expired on its own schedule. */
    method ExpireReservations(now: real)
      modifies this
      ensures table == map n | n in old(table) && now <= old(table)[n].reservation.expiration :: old(table)[n]
    {
      table := map n | n in table && !IsExpired(table[n].reservation, now) :: table[n];
    }
  }

  // ---------- The cache ----------

  class ExpiringAgentNetworkStorage {
    var agentsTable: map<string, AgentNetwork>
    var reservationsTable: map<string, Reservation>
    var baseStorage: BaseStorage?
    var listeners: seq<Listener>
    ghost var truth: map<string, Stored>  // every reservation ever made, the latest of each name
    ghost var clock: real

    ghost function Cache(): map<string, Stored>
      reads this
    {
      Joined(agentsTable, reservationsTable)
    }

    /** Agents and reservations are present or absent together; what is cached or in the base is
        the truth; and the base, or the cache when there is none, has all that has not expired. */
    ghost predicate Valid()
      reads this, baseStorage
    {
      && agentsTable.Keys == reservationsTable.Keys
      && PartOf(Cache(), truth)
      && (baseStorage != null ==> PartOf(baseStorage.table, truth))
      && HasCurrent(if baseStorage != null then baseStorage.table else Cache(), truth, clock)
    }

    ghost predicate InSync(l: Listener)
      reads this, l
    {
      l.Known() == agentsTable.Keys
    }

    /** The deployment is on record and in both tables, as it was made. */
    ghost predicate Serves(d: Deployment)
      reads this
    {
      var id := d.reservation.id;
      && id in truth && truth[id] == Stored(d.reservation, AgentNetwork(d.spec, id))
      && id in agentsTable && agentsTable[id] == AgentNetwork(d.spec, id)
      && id in reservationsTable && reservationsTable[id] == d.reservation
    }

    constructor (base: BaseStorage?, ghost now: real)
      ensures Valid() && baseStorage == base && clock == now && listeners == []
      ensures agentsTable == map[]
      ensures truth == if base == null then map[] else base.table
    {
      agentsTable := map[];
      reservationsTable := map[];
      baseStorage := base;
      listeners := [];
      truth := if base == null then map[] else base.table;
      clock := now;
    }

    /** The locked part of adding: write both tables, and tell new names from known ones. */
    method StoreBatch(batch: seq<Deployment>) returns (added: seq<string>, replaced: seq<string>)
      requires agentsTable.Keys == reservationsTable.Keys
      modifies this`agentsTable, this`reservationsTable
      ensures agentsTable.Keys == reservationsTable.Keys == old(agentsTable).Keys + Ids(batch)
      ensures Cache() == AddAll(old(Cache()), batch)
      ensures added == NewNames(old(agentsTable).Keys, batch) && replaced == KnownNames(old(agentsTable).Keys, batch)
    {
      ghost var known, before := agentsTable.Keys, Cache();
      added, replaced := [], [];
      for i := 0 to |batch|
        invariant agentsTable.Keys == reservationsTable.Keys == known + Ids(batch[..i])
        invariant Cache() == AddAll(before, batch[..i])
        invariant added == NewNames(known, batch[..i]) && replaced == KnownNames(known, batch[..i])
      {
        var reservation, agentSpec := batch[i].reservation, batch[i].spec;
        var agentName := reservation.id;
        AddAllSnoc(before, batch, i);
        NamesSnoc(known, batch, i);
        JoinedUpdate(agentsTable, reservationsTable, agentName,
            Stored(reservation, AgentNetwork(agentSpec, agentName)));
        var isNew := agentName !in agentsTable;
        agentsTable := agentsTable[agentName := AgentNetwork(agentSpec, agentName)];
        reservationsTable := reservationsTable[agentName := reservation];
        if isNew {
          added := added + [agentName];
        } else {
          replaced := replaced + [agentName];
        }
      }
      assert batch[..|batch|] == batch;
    }

    /** Everything but the announcement: the base first, then the tables. */
    method Record(batch: seq<Deployment>, ghost now: real) returns (added: seq<string>, replaced: seq<string>)
      requires Valid() && now >= clock
      modifies this`agentsTable, this`reservationsTable, this`truth, this`clock, baseStorage
      ensures forall i: nat :: Latest(batch, i) ==> Serves(batch[i])
      ensures Valid() && clock == now && truth == AddAll(old(truth), batch)
      ensures agentsTable.Keys == old(agentsTable).Keys + Ids(batch)
      ensures added == NewNames(old(agentsTable).Keys, batch) && replaced == KnownNames(old(agentsTable).Keys, batch)
    {
      clock := now;
      if baseStorage != null {
        BatchKeepsParts(baseStorage.table, truth, batch, now);
        baseStorage.AddReservations(batch);
      }
      BatchKeepsParts(Cache(), truth, batch, now);
      added, replaced := StoreBatch(batch);
      ghost var before := truth;
      truth := AddAll(truth, batch);
      ServesLatest(before, batch);
    }

    lemma ServesLatest(before: map<string, Stored>, batch: seq<Deployment>)
      requires agentsTable.Keys == reservationsTable.Keys && PartOf(Cache(), truth)
      requires truth == AddAll(before, batch) && Ids(batch) <= agentsTable.Keys
      ensures forall i: nat :: Latest(batch, i) ==> Serves(batch[i])
    {
      forall i: nat | Latest(batch, i) ensures Serves(batch[i]) {
        LatestWins(before, batch, i);
        assert batch[i].reservation.id in Ids(batch) && batch[i].reservation.id in Cache();
      }
    }

    method AddReservations(batch: seq<Deployment>, ghost now: real)
      requires Valid() && now >= clock
      modifies this`agentsTable, this`reservationsTable, this`truth, this`clock, baseStorage, listeners
      ensures Valid() && clock == now
      ensures truth == AddAll(old(truth), batch)
      ensures agentsTable.Keys == old(agentsTable).Keys + Ids(batch)
      ensures forall i: nat :: Latest(batch, i) ==> Serves(batch[i])
      ensures forall l :: l in listeners && old(InSync(l)) ==> InSync(l)
      ensures forall l :: l in listeners && multiset(listeners)[l] == 1 ==>
                l.events == old(l.events) + Events(n => Added(n), NewNames(old(agentsTable).Keys, batch))
                                          + Events(n => Modified(n), KnownNames(old(agentsTable).Keys, batch))
    {
      if batch == [] {
        clock := now;
        assert NewNames(agentsTable.Keys, batch) == [] && KnownNames(agentsTable.Keys, batch) == [];
        return;
      }
      ghost var known := agentsTable.Keys;
      var added, replaced := Record(batch, now);
      AnnounceAll(added, replaced, known, batch);
    }

    /** Outside the lock: every listener is told the new names, and then the known ones. */
    method AnnounceAll(added: seq<string>, replaced: seq<string>, ghost known: set<string>,
        ghost batch: seq<Deployment>)
      requires added == NewNames(known, batch) && replaced == KnownNames(known, batch)
      modifies listeners
      ensures forall l :: l in listeners && old(l.Known()) == known ==> l.Known() == known + Ids(batch)
      ensures forall l :: l in listeners && multiset(listeners)[l] == 1 ==>
                l.events == old(l.events) + Events(n => Added(n), added) + Events(n => Modified(n), replaced)
    {
      AnnouncementAddsBatch(known, batch);
      ghost var news, olds := Events(n => Added(n), added), Events(n => Modified(n), replaced);
      NotifyAll(listeners, Events(n => Added(n), added) + Events(n => Modified(n), replaced), known);
      forall l | l in listeners && multiset(listeners)[l] == 1 ensures l.events == old(l.events) + news + olds {
        Assoc(old(l.events), news, olds);
      }
    }

    /** First phase of a sweep: the expired names of a snapshot that was taken under the lock. */
    method ListExpired(now: real) returns (expired: seq<string>)
      ensures forall n :: n in expired <==> n in reservationsTable && now > reservationsTable[n].expiration
    {
      var snapshot := reservationsTable;
      expired := [];
      var unchecked := snapshot.Keys;
      while unchecked != {}
        invariant unchecked <= snapshot.Keys
        invariant forall n :: n in expired <==> n in snapshot.Keys - unchecked && IsExpired(snapshot[n], now)
      {
        var agentName :| agentName in unchecked;
        if IsExpired(snapshot[agentName], now) {
          expired := expired + [agentName];
        }
        unchecked := unchecked - {agentName};
      }
    }

    /** Second phase, under the lock again: the names are popped from both tables. */
    method PopAll(expired: seq<string>)
      modifies this`agentsTable, this`reservationsTable
      ensures reservationsTable == old(reservationsTable) - (set n | n in expired)
      ensures agentsTable == old(agentsTable) - (set n | n in expired)
    {
      for i := 0 to |expired|
        invariant reservationsTable == old(reservationsTable) - (set n | n in expired[..i])
        invariant agentsTable == old(agentsTable) - (set n | n in expired[..i])
      {
        assert expired[..i + 1] == expired[..i] + [expired[i]];
        reservationsTable := reservationsTable - {expired[i]};
        agentsTable := agentsTable - {expired[i]};
      }
      assert expired[..|expired|] == expired;
    }

    method ExpireReservations(now: real)
      requires Valid() && now >= clock
      modifies this`agentsTable, this`reservationsTable, this`clock, listeners
      ensures Valid() && clock == now
      ensures agentsTable ==
              map n | n in old(agentsTable) && now <= old(reservationsTable)[n].expiration :: old(agentsTable)[n]
      ensures var before := old(reservationsTable);
              reservationsTable == map n | n in before && now <= before[n].expiration :: before[n]
      ensures forall l :: l in listeners && old(InSync(l)) ==> InSync(l)
    {
      clock := now;
      var expired := ListExpired(now);
      if |expired| == 0 {
        return;
      }
      ghost var known := agentsTable.Keys;
      PopAll(expired);
      AnnounceRemoved(expired, known);
    }

    method AnnounceRemoved(names: seq<string>, ghost known: set<string>)
      modifies listeners
      ensures forall l :: l in listeners && old(l.Known()) == known ==> l.Known() == known - (set n | n in names)
      ensures forall l :: l in listeners && multiset(listeners)[l] == 1 ==>
                l.events == old(l.events) + Events(n => Removed(n), names)
    {
      AnnouncementRemoves(known, names);
      NotifyAll(listeners, Events(n => Removed(n), names), known);
    }

    /** The base expires on its own while this storage is idle. */
    method BaseExpires(now: real)
      requires Valid() && now >= clock && baseStorage != null
      modifies baseStorage, this`clock
      ensures Valid() && clock == now
    {
      baseStorage.ExpireReservations(now);
      clock := now;
    }

    method DropOne(agentName: string)
      modifies this`agentsTable, this`reservationsTable, listeners
      ensures agentsTable == old(agentsTable) - {agentName} && reservationsTable == old(reservationsTable) - {agentName}
      ensures forall l :: l in listeners && old(InSync(l)) ==> InSync(l)
    {
      ghost var known := agentsTable.Keys;
      reservationsTable := reservationsTable - {agentName};
      agentsTable := agentsTable - {agentName};
      AnnounceRemoved([agentName], known);
    }

    method CacheOne(agentName: string, found: Stored)
      modifies this`agentsTable, this`reservationsTable, listeners
      ensures agentsTable == old(agentsTable)[agentName := found.network]
      ensures reservationsTable == old(reservationsTable)[agentName := found.reservation]
      ensures forall l :: l in listeners && old(InSync(l)) ==> InSync(l)
    {
      ghost var known := agentsTable.Keys;
      reservationsTable := reservationsTable[agentName := found.reservation];
      agentsTable := agentsTable[agentName := found.network];
      ReplayArrivals(known, [Added(agentName)]);
      ReplayArrivals(known + {agentName}, [Added(agentName)]);
      assert Names([Added(agentName)]) == {agentName};
      NotifyAll(listeners, [Added(agentName)], known);
    }

    /** Looking a name up gives what the table of everything reserved answers at that time, and
        so what the base would answer, whatever has been cached or swept. */
    method GetAgentNetworkProvider(agentName: string, now: real) returns (r: Option<AgentNetwork>)
      requires Valid() && now >= clock
      modifies this`agentsTable, this`reservationsTable, this`clock, listeners
      ensures Valid() && clock == now
      ensures r == if agentName in truth && now <= truth[agentName].reservation.expiration
                   then Some(truth[agentName].network) else None
      ensures baseStorage != null ==>
                var base := baseStorage.table;
                r == if agentName in base && now <= base[agentName].reservation.expiration
                     then Some(base[agentName].network) else None
      ensures r.Some? <==> agentName in agentsTable
      ensures forall n :: n != agentName ==>
                (n in agentsTable <==> n in old(agentsTable)) &&
                    (n in agentsTable ==> agentsTable[n] == old(agentsTable)[n])
      ensures forall l :: l in listeners && old(InSync(l)) ==> InSync(l)
    {
      clock := now;
      if agentName in reservationsTable {
        assert Cache()[agentName].reservation == reservationsTable[agentName];
        if IsExpired(reservationsTable[agentName], now) {
          DropOne(agentName);
          return None;
        }
        return if agentName in agentsTable then Some(agentsTable[agentName]) else None;
      }
      if baseStorage != null {
        var found := baseStorage.GetOneReservation(agentName, now);
        if found.Some? && !IsExpired(found.value.reservation, now) {
          CacheOne(agentName, found.value);
          return Some(found.value.network);
        }
      }
      r := None;
    }
  }
}
