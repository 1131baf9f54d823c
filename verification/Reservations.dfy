/** neuro_san/internals/reservations: reserving names for agent networks (agent_reservation.py),
    collecting deployments inside a with-statement (accumulating_agent_reservationist.py), and
    deploying them group by group (direct_ and abstract_agent_reservationist.py). */
module Reservations {
  import opened Wrappers

  function Min(a: real, b: real): real {
    if a <= b then a else b
  }

  predicate IsShorter(life: real, a: real, b: real) {
    life <= a && life <= b && (life == a || life == b)
  }

  const DEFAULT_LIFETIME: real := 86400.0  // one day in seconds

  // ---------- Reservations ----------

  class AgentReservation {
    const prefix: string  // with its dash, or empty
    const uuid: string
    const lifetime: real
    var expiration: real

    constructor (lifetime: real, prefix: Option<string>, uuid: string)
      ensures this.lifetime == lifetime && this.uuid == uuid && expiration == 0.0
      ensures this.prefix == PrefixText(prefix)
    {
      this.lifetime := lifetime;
      this.prefix := PrefixText(prefix);
      this.uuid := uuid;
      expiration := 0.0;
    }

    function GetReservationId(): string {
      prefix + uuid
    }

    method SetExpirationFrom(useNow: real, maxLifetime: real)
      modifies this
      ensures var life := expiration - useNow;
              life <= lifetime && life <= maxLifetime && (life == lifetime || life == maxLifetime)
    {
      expiration := useNow + Min(lifetime, maxLifetime);
    }
  }

  function PrefixText(prefix: Option<string>): string {
    if prefix.None? || prefix.value == "" then "" else prefix.value + "-"
  }

  /** What validate_id accepts. */
  predicate ValidId(id: string) {
    id != "" && '/' !in id && ':' !in id && ' ' !in id
  }

  predicate IsUuid(s: string) {
    s != "" && forall c :: c in s ==> c == '-' || '0' <= c <= '9' || 'a' <= c <= 'f'
  }

  /** A prefix that passed makes an id that passes, and no other does. */
  lemma ReservedIdIsValidIff(prefix: Option<string>, uuid: string)
    requires IsUuid(uuid)
    ensures ValidId(PrefixText(prefix) + uuid) <==> prefix.None? || prefix.value == "" || ValidId(prefix.value)
  {
    var id := PrefixText(prefix) + uuid;
    assert '/' !in uuid && ':' !in uuid && ' ' !in uuid;
    if prefix.Some? && prefix.value != "" {
      assert forall c :: c in prefix.value ==> c in id;
    }
  }

  // ---------- Storages and deployments ----------

  datatype Entry = Entry(reservation: AgentReservation, spec: string)

  datatype Batch = Batch(source: string, entries: seq<Entry>)

  /** Keeps references to the reservations it is given, as the storages do. */
  class ReservationsStorage {
    var batches: seq<Batch>
    var sweeps: nat  // how often expired reservations were asked to be removed

    constructor ()
      ensures batches == [] && sweeps == 0
    {
      batches := [];
      sweeps := 0;
    }

    method ExpireReservations()
      modifies this`sweeps
      ensures sweeps == old(sweeps) + 1
    {
      sweeps := sweeps + 1;
    }

    method AddReservations(entries: seq<Entry>, source: string)
      modifies this`batches
      ensures batches == old(batches) + [Batch(source, entries)]
    {
      batches := batches + [Batch(source, entries)];
    }
  }

  class Event {
    var isSet: bool

    constructor ()
      ensures !isSet
    {
      isSet := false;
    }
  }

  class Clock {
    var now: real

    /** Time passes, by any amount, and is read. */
    method Time() returns (t: real)
      modifies this
      ensures t == now >= old(now)
    {
      var d: real :| d >= 0.0;
      now := now + d;
      t := now;
    }
  }

  /** One group of deployments: the event that confirms it (a group can also come under a plain
      string key), and its reservations with their specs. */
  datatype Group = Group(event: Option<Event>, entries: seq<Entry>)

  ghost function ReservationsOf(entries: seq<Entry>): set<AgentReservation> {
    set e | e in entries :: e.reservation
  }

  ghost function AllReservations(groups: seq<Group>): set<AgentReservation> {
    set g, e | g in groups && e in g.entries :: e.reservation
  }

  /** A group after `g`, among the first `k`, has the same reservation again. */
  ghost predicate Again(groups: seq<Group>, g: int, k: int, r: AgentReservation) {
    exists i :: g < i < k && 0 <= i < |groups| && r in ReservationsOf(groups[i].entries)
  }

  lemma AgainGrows(groups: seq<Group>, k: nat, next: nat)
    requires k < |groups| && next == k + 1
    ensures forall g, r :: Again(groups, g, k, r) ==> Again(groups, g, next, r)
    ensures forall g, r :: g < k && r in ReservationsOf(groups[k].entries) ==> Again(groups, g, next, r)
  {
    forall g, r | Again(groups, g, k, r) ensures Again(groups, g, next, r) {
      var i :| g < i < k && 0 <= i < |groups| && r in ReservationsOf(groups[i].entries);
      assert g < i < next;
    }
    forall g, r | g < k && r in ReservationsOf(groups[k].entries) ensures Again(groups, g, next, r) {
      assert g < k < next;
    }
  }

  /** Every reservation expires as the last group it is in says. */
  ghost predicate ExpiriesSet(groups: seq<Group>, bases: seq<real>, k: nat, maxLifetime: real)
    requires k <= |groups| && k <= |bases|
    reads AllReservations(groups)
  {
    forall g, e :: 0 <= g < k && e in groups[g].entries && !Again(groups, g, k, e.reservation) ==>
      IsShorter(e.reservation.expiration - bases[g], e.reservation.lifetime, maxLifetime)
  }

  /** Clock readings between two times, none earlier than the one before. */
  predicate ReadInOrder(bases: seq<real>, from: real, to: real) {
    && from <= to
    && (forall i :: 0 <= i < |bases| ==> from <= bases[i] <= to)
    && (forall i, j :: 0 <= i <= j < |bases| ==> bases[i] <= bases[j])
  }

  lemma ReadOnce(bases: seq<real>, from: real, to: real)
    ensures forall before :: ReadInOrder(bases, from, before) && before <= to ==> ReadInOrder(bases + [to], from, to)
  {
  }

  ghost function AllEvents(groups: seq<Group>): set<Event> {
    set g | g in groups && g.event.Some? :: g.event.value
  }

  /** The steps of a deployment that others can observe, by storage and by group. */
  datatype Action = Swept(storage: nat) | Stored(storage: nat, group: nat) | Confirmed(group: nat)

  function SweepActions(storages: nat): seq<Action> {
    seq(storages, s requires 0 <= s < storages => Swept(s))
  }

  function StoreActions(storages: nat, group: nat): seq<Action> {
    seq(storages, s requires 0 <= s < storages => Stored(s, group))
  }

  function GroupActions(storages: nat, group: nat, confirmed: bool): seq<Action> {
    StoreActions(storages, group) + (if confirmed then [Confirmed(group)] else [])
  }

  function Actions(storages: nat, groups: seq<Group>): seq<Action> {
    if groups == [] then []
    else
      var k := |groups| - 1;
      Actions(storages, groups[..k]) + GroupActions(storages, k, groups[k].event.Some?)
  }

  /** What every storage is given: each group once, in order, under one source. */
  function Batches(source: string, groups: seq<Group>): seq<Batch> {
    seq(|groups|, g requires 0 <= g < |groups| => Batch(source, groups[g].entries))
  }

  class DirectAgentReservationist {
    const storages: seq<ReservationsStorage>
    const maxLifetime: real
    ghost var trace: seq<Action>  // what has been done, in order

    constructor (storages: seq<ReservationsStorage>, maxLifetime: real)
      ensures this.storages == storages && this.maxLifetime == maxLifetime && trace == []
    {
      this.storages := storages;
      this.maxLifetime := maxLifetime;
      trace := [];
    }

    /** The storages form a set. */
    ghost predicate Distinct() {
      forall i, j :: 0 <= i < j < |storages| ==> storages[i] != storages[j]
    }

    // The three kinds of action; nothing else extends the trace.

    method Sweep(storage: ReservationsStorage, ghost i: nat)
      requires i < |storages| && storages[i] == storage
      modifies this`trace, storage`sweeps
      ensures storage.sweeps == old(storage.sweeps) + 1
      ensures trace == old(trace) + [Swept(i)]
    {
      storage.ExpireReservations();
      trace := trace + [Swept(i)];
    }

    method Store(storage: ReservationsStorage, entries: seq<Entry>, source: string, ghost i: nat, ghost group: nat)
      requires i < |storages| && storages[i] == storage
      modifies this`trace, storage`batches
      ensures storage.batches == old(storage.batches) + [Batch(source, entries)]
      ensures trace == old(trace) + [Stored(i, group)]
    {
      storage.AddReservations(entries, source);
      trace := trace + [Stored(i, group)];
    }

    method SetEvent(event: Event, ghost group: nat)
      modifies this`trace, event
      ensures event.isSet && trace == old(trace) + [Confirmed(group)]
    {
      event.isSet := true;
      trace := trace + [Confirmed(group)];
    }

    /** One group: one reading of the clock, one expiry per reservation, then every storage. */
    method DeployTogether(entries: seq<Entry>, source: string, maxLifetime: real, clock: Clock, ghost group: nat)
        returns (useNow: real)
      requires Distinct()
      modifies this`trace, clock, ReservationsOf(entries), storages`batches
      ensures useNow == clock.now >= old(clock.now)
      ensures forall e :: e in entries ==>
          IsShorter(e.reservation.expiration - useNow, e.reservation.lifetime, maxLifetime)
      ensures forall s :: s in storages ==> s.batches == old(s.batches) + [Batch(source, entries)]
      ensures trace == old(trace) + StoreActions(|storages|, group)
    {
      useNow := clock.Time();
      for i := 0 to |entries|
        invariant forall e :: e in entries[..i] ==>
            IsShorter(e.reservation.expiration - useNow, e.reservation.lifetime, maxLifetime)
        modifies ReservationsOf(entries)
      {
        entries[i].reservation.SetExpirationFrom(useNow, maxLifetime);
      }
      assert entries[..|entries|] == entries;
      for i := 0 to |storages|
        invariant forall s :: s in storages[..i] ==> s.batches == old(s.batches) + [Batch(source, entries)]
        invariant forall s :: s in storages[i..] ==> s.batches == old(s.batches)
        invariant trace == old(trace) + StoreActions(i, group)
        modifies this`trace, storages`batches
      {
        Store(storages[i], entries, source, i, group);
        assert StoreActions(i + 1, group) == StoreActions(i, group) + [Stored(i, group)];
        Assoc(old(trace), StoreActions(i, group), [Stored(i, group)]);
      }
      assert storages[..|storages|] == storages;
    }

    /** All groups of one with-statement. `bases` are the clock readings, one for each group. */
    method DeployGroups(source: string, groups: seq<Group>, clock: Clock) returns (ghost bases: seq<real>)
      requires Distinct()
      modifies this`trace, clock, AllReservations(groups), storages`batches, AllEvents(groups)
      ensures |bases| == |groups| && ReadInOrder(bases, old(clock.now), clock.now)
      ensures trace == old(trace) + Actions(|storages|, groups)
      ensures forall s :: s in storages ==> s.batches == old(s.batches) + Batches(source, groups)
      ensures forall g :: 0 <= g < |groups| && groups[g].event.Some? ==> groups[g].event.value.isSet
      ensures ExpiriesSet(groups, bases, |groups|, maxLifetime)
    {
      bases := [];
      for k := 0 to |groups|
        invariant |bases| == k && ReadInOrder(bases, old(clock.now), clock.now)
        invariant trace == old(trace) + Actions(|storages|, groups[..k])
        invariant forall s :: s in storages ==> s.batches == old(s.batches) + Batches(source, groups[..k])
        invariant forall g :: 0 <= g < k && groups[g].event.Some? ==> groups[g].event.value.isSet
        invariant ExpiriesSet(groups, bases, k, maxLifetime)
      {
        assert groups[k] in groups;
        BatchesSnoc(source, groups, k);
        ActionsSnoc(old(trace), |storages|, groups, k);
        var useNow := DeployNext(source, groups, k, bases, clock);
        ReadOnce(bases, old(clock.now), useNow);
        bases := bases + [useNow];
      }
      assert groups[..|groups|] == groups;
    }

    /** One turn of the loop, and what it keeps of the turns before. */
    method DeployNext(source: string, groups: seq<Group>, k: nat, ghost bases: seq<real>, clock: Clock)
        returns (useNow: real)
      requires Distinct() && k < |groups| && |bases| == k && ExpiriesSet(groups, bases, k, maxLifetime)
      modifies this`trace, clock, ReservationsOf(groups[k].entries), storages`batches,
               if groups[k].event.Some? then {groups[k].event.value} else {}
      ensures useNow == clock.now >= old(clock.now)
      ensures trace == old(trace) + GroupActions(|storages|, k, groups[k].event.Some?)
      ensures forall s :: s in storages ==> s.batches == old(s.batches) + [Batch(source, groups[k].entries)]
      ensures forall e: Event :: old(allocated(e)) && old(e.isSet) ==> e.isSet
      ensures groups[k].event.Some? ==> groups[k].event.value.isSet
      ensures ExpiriesSet(groups, bases + [useNow], k + 1, maxLifetime)
    {
      AgainGrows(groups, k, k + 1);
      useNow := DeployGroup(source, groups[k], clock, k);
    }

    method SweepAll()
      requires Distinct()
      modifies this`trace, storages
      ensures trace == old(trace) + SweepActions(|storages|)
      ensures forall s :: s in storages ==> s.sweeps == old(s.sweeps) + 1 && s.batches == old(s.batches)
    {
      for i := 0 to |storages|
        invariant forall s :: s in storages ==> s.batches == old(s.batches)
        invariant forall s :: s in storages[..i] ==> s.sweeps == old(s.sweeps) + 1
        invariant forall s :: s in storages[i..] ==> s.sweeps == old(s.sweeps)
        invariant trace == old(trace) + SweepActions(i)
      {
        Sweep(storages[i], i);
        assert SweepActions(i + 1) == SweepActions(i) + [Swept(i)];
        Assoc(old(trace), SweepActions(i), [Swept(i)]);
      }
      assert storages[..|storages|] == storages;
    }

    /** First every storage is swept, then the groups are deployed. */
    method Deploy(source: string, groups: seq<Group>, clock: Clock) returns (ghost bases: seq<real>)
      requires Distinct()
      modifies this`trace, clock, AllReservations(groups), storages, AllEvents(groups)
      ensures |bases| == |groups| && ReadInOrder(bases, old(clock.now), clock.now)
      ensures trace == old(trace) + (SweepActions(|storages|) + Actions(|storages|, groups))
      ensures forall s :: s in storages ==>
          s.sweeps == old(s.sweeps) + 1 && s.batches == old(s.batches) + Batches(source, groups)
      ensures forall g :: 0 <= g < |groups| && groups[g].event.Some? ==> groups[g].event.value.isSet
      ensures ExpiriesSet(groups, bases, |groups|, maxLifetime)
    {
      Assoc(trace, SweepActions(|storages|), Actions(|storages|, groups));
      SweepAll();
      bases := DeployGroups(source, groups, clock);
    }

    /** The body of the loop over the groups: deploy, then confirm. */
    method DeployGroup(source: string, group: Group, clock: Clock, ghost index: nat) returns (useNow: real)
      requires Distinct()
      modifies this`trace, clock, ReservationsOf(group.entries), storages`batches,
               if group.event.Some? then {group.event.value} else {}
      ensures useNow == clock.now >= old(clock.now)
      ensures forall e :: e in group.entries ==>
          IsShorter(e.reservation.expiration - useNow, e.reservation.lifetime, maxLifetime)
      ensures forall s :: s in storages ==> s.batches == old(s.batches) + [Batch(source, group.entries)]
      ensures group.event.Some? ==> group.event.value.isSet
      ensures trace == old(trace) + GroupActions(|storages|, index, group.event.Some?)
    {
      Assoc(trace, StoreActions(|storages|, index), [Confirmed(index)]);
      useNow := DeployTogether(group.entries, source, maxLifetime, clock, index);
      if group.event.Some? {
        SetEvent(group.event.value, index);
      }
    }
  }

  lemma ActionsSnoc(before: seq<Action>, storages: nat, groups: seq<Group>, k: nat)
    requires k < |groups|
    ensures before + Actions(storages, groups[..k + 1])
         == (before + Actions(storages, groups[..k])) + GroupActions(storages, k, groups[k].event.Some?)
  {
    assert groups[..k + 1][..k] == groups[..k];
    Assoc(before, Actions(storages, groups[..k]), GroupActions(storages, k, groups[k].event.Some?));
  }

  lemma BatchesSnoc(source: string, groups: seq<Group>, k: nat)
    requires k < |groups|
    ensures Batches(source, groups[..k + 1]) == Batches(source, groups[..k]) + [Batch(source, groups[k].entries)]
  {
  }

  // ---------- What a trace of actions means ----------

  lemma {:induction false} ActionsMentionKnownGroups(storages: nat, groups: seq<Group>, a: Action)
    requires a in Actions(storages, groups)
    ensures !a.Swept? && a.group < |groups| && (a.Stored? ==> a.storage < storages)
  {
    var front, last := groups[..|groups| - 1], GroupActions(storages, |groups| - 1, groups[|groups| - 1].event.Some?);
    if a !in last {
      ActionsMentionKnownGroups(storages, front, a);
    }
  }

  lemma StoreActionsCount(storages: nat, group: nat, s: nat)
    requires s < storages
    ensures multiset(StoreActions(storages, group))[Stored(s, group)] == 1
  {
    var a := StoreActions(storages, group);
    assert a == a[..s] + [a[s]] + a[s + 1..];
    assert Stored(s, group) !in a[..s] && Stored(s, group) !in a[s + 1..];
  }

  lemma LastGroupCount(storages: nat, group: nat, confirmed: bool, s: nat)
    requires s < storages
    ensures multiset(GroupActions(storages, group, confirmed))[Stored(s, group)] == 1
    ensures multiset(GroupActions(storages, group, confirmed))[Confirmed(group)] == if confirmed then 1 else 0
  {
    var end := if confirmed then [Confirmed(group)] else [];
    StoreActionsCount(storages, group, s);
    assert multiset(GroupActions(storages, group, confirmed)) == multiset(StoreActions(storages, group))
        + multiset(end);
    assert Confirmed(group) !in StoreActions(storages, group);
  }

  lemma OtherGroupCount(storages: nat, group: nat, confirmed: bool, s: nat, g: nat)
    requires g != group
    ensures multiset(GroupActions(storages, group, confirmed))[Stored(s, g)]
        == multiset(GroupActions(storages, group, confirmed))[Confirmed(g)] == 0
  {
    assert forall a :: a in GroupActions(storages, group, confirmed) ==> !a.Swept? && a.group == group;
  }

  lemma LaterGroupCount(storages: nat, groups: seq<Group>, s: nat, g: nat)
    requires g >= |groups|
    ensures multiset(Actions(storages, groups))[Stored(s, g)] == multiset(Actions(storages, groups))[Confirmed(g)] == 0
  {
    if Stored(s, g) in Actions(storages, groups) { ActionsMentionKnownGroups(storages, groups, Stored(s, g)); }
    if Confirmed(g) in Actions(storages, groups) { ActionsMentionKnownGroups(storages, groups, Confirmed(g)); }
  }

  /** How often a group is stored and confirmed, with one more group than before. */
  lemma CountsSnoc(storages: nat, groups: seq<Group>, s: nat, g: nat)
    requires groups != []
    ensures var k := |groups| - 1; var all := multiset(Actions(storages, groups));
            var early := multiset(Actions(storages, groups[..k]));
            var last := multiset(GroupActions(storages, k, groups[k].event.Some?));
            && all[Stored(s, g)] == early[Stored(s, g)] + last[Stored(s, g)]
            && all[Confirmed(g)] == early[Confirmed(g)] + last[Confirmed(g)]
  {
    var k := |groups| - 1;
    assert Actions(storages, groups)
        == Actions(storages, groups[..k]) + GroupActions(storages, k, groups[k].event.Some?);
  }

  /** Every group reaches every storage exactly once and is confirmed at most once. */
  lemma {:induction false} StoredExactlyOnce(storages: nat, groups: seq<Group>, s: nat, g: nat)
    requires s < storages && g < |groups|
    ensures multiset(Actions(storages, groups))[Stored(s, g)] == 1
    ensures multiset(Actions(storages, groups))[Confirmed(g)] == if groups[g].event.Some? then 1 else 0
  {
    var k := |groups| - 1;
    CountsSnoc(storages, groups, s, g);
    if g < k {
      StoredExactlyOnce(storages, groups[..k], s, g);
      OtherGroupCount(storages, k, groups[k].event.Some?, s, g);
    } else {
      LaterGroupCount(storages, groups[..k], s, k);
      LastGroupCount(storages, k, groups[k].event.Some?, s);
    }
  }

  /** At every confirmation the group is already in every storage. */
  lemma {:induction false} ConfirmedOnlyAfterStored(storages: nat, groups: seq<Group>, p: nat, s: nat)
    requires s < storages && p < |Actions(storages, groups)| && Actions(storages, groups)[p].Confirmed?
    ensures Stored(s, Actions(storages, groups)[p].group) in Actions(storages, groups)[..p]
  {
    var k := |groups| - 1;
    var all := Actions(storages, groups);
    var early := Actions(storages, groups[..k]);
    if p < |early| {
      ConfirmedOnlyAfterStored(storages, groups[..k], p, s);
      assert all[..p] == early[..p];
    } else {
      assert all[..p][|early| + s] == StoreActions(storages, k)[s] == Stored(s, k);
    }
  }

  // ---------- Collecting ----------

  datatype Error = BadId | InvalidNetwork | KeysNotIndexable

  class AccumulatingAgentReservationist {
    const maxLifetime: real
    const agentName: string
    const supporting: DirectAgentReservationist
    const acceptsNetwork: string -> bool  // ManifestNetworkValidator finds no errors
    var deployments: seq<Group>
    var supportingReservation: AgentReservation?

    constructor (supporting: DirectAgentReservationist, agentName: string, maxLifetime: real,
        acceptsNetwork: string -> bool)
      ensures this.supporting == supporting && this.agentName == agentName && this.maxLifetime == maxLifetime
      ensures this.acceptsNetwork == acceptsNetwork && deployments == [] && supportingReservation == null
    {
      this.supporting := supporting;
      this.agentName := agentName;
      this.maxLifetime := maxLifetime;
      this.acceptsNetwork := acceptsNetwork;
      deployments := [];
      supportingReservation := null;
    }

    method Reserve(lifetime: real, prefix: Option<string>, uuid: string) returns (r: Result<AgentReservation, Error>)
      ensures r.Failure? <==> prefix.Some? && ('/' in prefix.value || ':' in prefix.value || ' ' in prefix.value)
      ensures r.Success? ==> fresh(r.value) && r.value.lifetime <= lifetime && r.value.lifetime <= maxLifetime
      ensures r.Success? ==> r.value.lifetime == lifetime || r.value.lifetime == maxLifetime
      ensures r.Success? ==>
                var before := if prefix.None? || prefix.value == "" then "" else prefix.value + "-";
                r.value.GetReservationId() == before + uuid
      ensures r.Success? && IsUuid(uuid) ==> ValidId(r.value.GetReservationId())
    {
      var actualLifetime := Min(lifetime, maxLifetime);
      if prefix.Some? && |prefix.value| > 0 && !ValidId(prefix.value) {
        return Failure(BadId);
      }
      if IsUuid(uuid) { ReservedIdIsValidIff(prefix, uuid); }
      var reservation := new AgentReservation(actualLifetime, prefix, uuid);
      r := Success(reservation);
    }

    /** `__aenter__` */
    method Enter(uuid: string)
      modifies this
      ensures deployments == [] && supportingReservation != null && fresh(supportingReservation)
      ensures supportingReservation.prefix == if agentName == "" then "" else agentName + "-"
      ensures var life := supportingReservation.lifetime;
              && life <= 86400.0 && life <= supporting.maxLifetime
              && (life == 86400.0 || life == supporting.maxLifetime)
    {
      deployments := [];
      supportingReservation := new AgentReservation(Min(DEFAULT_LIFETIME, supporting.maxLifetime), Some(agentName),
          uuid);
    }

    predicate AllIdsValid(entries: seq<Entry>) {
      forall e :: e in entries ==>
        var id := e.reservation.GetReservationId();
        id != "" && '/' !in id && ':' !in id && ' ' !in id
    }

    predicate Acceptable(entries: seq<Entry>) {
      AllIdsValid(entries) && forall e :: e in entries ==> acceptsNetwork(e.spec)
    }

    /** Add one group, whole or not at all. A bad id anywhere is reported before any bad network.
        Without `confirmation` the code indexes a view of keys and always raises, although that is
        the default. */
    method Deploy(entries: seq<Entry>, confirmation: bool) returns (r: Result<Option<Event>, Error>)
      modifies this`deployments
      ensures entries == [] ==> r == Success(None)
      ensures entries != [] ==> (r.Success? <==> Acceptable(entries) && confirmation)
      ensures entries != [] && r.Success? ==>
                r.value.Some? && fresh(r.value.value) && !r.value.value.isSet &&
                    deployments == old(deployments) + [Group(r.value, entries)]
      ensures entries == [] || r.Failure? ==> deployments == old(deployments)
      ensures r.Failure? ==> match r.error
                             case BadId => !AllIdsValid(entries)
                             case InvalidNetwork => AllIdsValid(entries) && !Acceptable(entries)
                             case KeysNotIndexable => Acceptable(entries) && !confirmation
    {
      if entries == [] {
        return Success(None);
      }
      var errors: set<string> := {};
      for i := 0 to |entries|
        invariant forall e :: e in entries[..i] ==> ValidId(e.reservation.GetReservationId())
        invariant errors == {} <==> forall e :: e in entries[..i] ==> acceptsNetwork(e.spec)
      {
        var key := entries[i].reservation.GetReservationId();
        assert entries[..i + 1] == entries[..i] + [entries[i]];
        if !ValidId(key) {
          return Failure(BadId);
        }
        if !acceptsNetwork(entries[i].spec) {
          errors := errors + {key};
        }
      }
      assert entries[..|entries|] == entries;
      if errors != {} {
        return Failure(InvalidNetwork);
      }
      if !confirmation {
        return Failure(KeysNotIndexable);
      }
      var event := new Event();
      deployments := deployments + [Group(Some(event), entries)];
      r := Success(Some(event));
    }

    /** `__aexit__`: everything collected since Enter is deployed, once, and forgotten. */
    method Exit(clock: Clock) returns (ghost bases: seq<real>)
      requires supportingReservation != null && supporting.Distinct()
      modifies this, supporting`trace, clock, AllReservations(deployments), supporting.storages, AllEvents(deployments)
      ensures deployments == [] && supportingReservation == null
      ensures var groups := old(deployments);
              && |bases| == |groups| && ReadInOrder(bases, old(clock.now), clock.now)
              && supporting.trace == old(supporting.trace)
                  + (SweepActions(|supporting.storages|) + Actions(|supporting.storages|, groups))
              && (forall s :: s in supporting.storages ==>
                  s.batches == old(s.batches) + Batches(old(supportingReservation).prefix, groups))
              && (forall g :: 0 <= g < |groups| && groups[g].event.Some? ==> groups[g].event.value.isSet)
              && ExpiriesSet(groups, bases, |groups|, supporting.maxLifetime)
    {
      bases := supporting.Deploy(supportingReservation.prefix, deployments, clock);
      supportingReservation := null;
      deployments := [];
    }
  }

  /** One with-statement that deploys one reservation: the event is set, every storage has the
      reservation once more, and it expires when it should. */
  method DeployOne(r: AccumulatingAgentReservationist, entry: Entry, uuid: string, clock: Clock)
    returns (event: Option<Event>, ghost life: real)
    requires r.supporting.Distinct()
    modifies r, r.supporting`trace, clock, entry.reservation, r.supporting.storages
    ensures event.Some? <==> r.Acceptable([entry])
    ensures event.Some? ==> event.value.isSet
    ensures event.Some? ==>
              && IsShorter(life, entry.reservation.lifetime, r.supporting.maxLifetime)
              && old(clock.now) <= entry.reservation.expiration - life <= clock.now
    ensures forall s :: s in r.supporting.storages ==>
              s.batches == old(s.batches) +
                if event.Some? then [Batch(if r.agentName == "" then "" else r.agentName + "-", [entry])] else []
  {
    r.Enter(uuid);
    var deployed := r.Deploy([entry], true);
    event := if deployed.Success? then deployed.value else None;
    life := ExitWithOne(r, entry, event, clock);
  }

  /** Leaving a with-statement in which one group was collected, or none. */
  method ExitWithOne(r: AccumulatingAgentReservationist, ghost entry: Entry, ghost event: Option<Event>, clock: Clock)
    returns (ghost life: real)
    requires r.supporting.Distinct() && r.supportingReservation != null
    requires r.deployments == if event.Some? then [Group(event, [entry])] else []
    modifies r, r.supporting`trace, clock, entry.reservation, r.supporting.storages,
             if event.Some? then {event.value} else {}
    ensures event.Some? ==> event.value.isSet
    ensures event.Some? ==>
              && IsShorter(life, entry.reservation.lifetime, r.supporting.maxLifetime)
              && old(clock.now) <= entry.reservation.expiration - life <= clock.now
    ensures forall s :: s in r.supporting.storages ==>
              s.batches == old(s.batches) +
                           if event.Some? then [Batch(old(r.supportingReservation).prefix, [entry])] else []
  {
    ghost var groups := r.deployments;
    OneGroup(r.supportingReservation.prefix, groups, entry);
    ghost var bases := r.Exit(clock);
    life := if event.Some? then entry.reservation.expiration - bases[0] else 0.0;
  }

  /** From reserving to confirmation. */
  method ReserveAndDeploy(r: AccumulatingAgentReservationist, lifetime: real, prefix: Option<string>, uuid: string,
      spec: string, clock: Clock)
    returns (event: Option<Event>, reservation: AgentReservation?, ghost life: real)
    requires r.supporting.Distinct() && IsUuid(uuid)
    modifies r, r.supporting`trace, clock, r.supporting.storages
    ensures var allowed := prefix.None? || ('/' !in prefix.value && ':' !in prefix.value && ' ' !in prefix.value);
            event.Some? <==> allowed && r.acceptsNetwork(spec)
    ensures event.Some? ==> event.value.isSet && reservation != null
    ensures event.Some? ==>
              && old(clock.now) <= reservation.expiration - life <= clock.now
              && life <= lifetime && life <= r.maxLifetime && life <= r.supporting.maxLifetime
              && life in {lifetime, r.maxLifetime, r.supporting.maxLifetime}
    ensures event.Some? ==>
              reservation.GetReservationId() ==
              (if prefix.None? || prefix.value == "" then "" else prefix.value + "-") + uuid
    ensures forall s :: s in r.supporting.storages ==>
              s.batches == old(s.batches) +
                if event.Some? then
                  [Batch(if r.agentName == "" then "" else r.agentName + "-", [Entry(reservation, spec)])]
                else []
  {
    var reserved := r.Reserve(lifetime, prefix, uuid);
    if reserved.Failure? {
      return None, null, 0.0;
    }
    reservation := reserved.value;
    event, life := DeployOne(r, Entry(reservation, spec), uuid, clock);
  }

  lemma OneGroup(source: string, groups: seq<Group>, entry: Entry)
    ensures groups == [] ==> Batches(source, groups) == []
    ensures |groups| == 1 && groups[0].entries == [entry] ==>
              Batches(source, groups) == [Batch(source, [entry])] && entry in groups[0].entries &&
                  !Again(groups, 0, 1, entry.reservation)
  {
  }
}
