/** The same storage under threads (expiring_agent_network_storage.py), as a state machine whose
    steps are single accesses of a table, a check of the clock, or taking or leaving the lock.
    Adders, the two-phase sweeper and lookups interleave freely. */
module StorageInterleaving {
  import opened Wrappers

  /** Writing a reservation appends to a log; tables hold the position of the write they show, so
      that two writes of one name can be told apart. */
  datatype Write = Write(name: string, expiration: real)

  datatype Tables = Tables(agents: map<string, int>, reservations: map<string, nat>, log: seq<Write>)

  /** One table access inside a critical section. A pop remembers the write that was found
      expired before. */
  datatype Access =
    | SetAgent(name: string, network: int)
    | SetReservation(name: string, expiration: real)
    | PopReservation(name: string, seen: nat)
    | PopAgent(name: string)

  datatype Item = Item(name: string, expiration: real, network: int)

  /** Where a lookup got its answer: the agents table, the base storage, or an expired reservation. */
  datatype Source = FromTable | FromBase | FromExpiry

  /** How an operation ends. Only lookups answer anything. */
  datatype Outcome = Finished | Answered(name: string, network: Option<int>, source: Source)

  datatype Thread =
    | Idle
    | Ready(todo: seq<Access>, outcome: Outcome)     // waits for the lock; ends with the outcome
    | Critical(todo: seq<Access>, outcome: Outcome)  // has it
    | SweepWaits
    | SweepCopies                                                     // has the lock
    | SweepChecks(snapshot: map<string, nat>, unchecked: set<string>, expired: seq<string>)
    | LookupStarts(name: string)
    | LookupSaw(name: string, seen: nat)
    | LookupCurrent(name: string)
    | LookupMissed(name: string)
    | Done(outcome: Outcome)

  datatype State = State(t: Tables, lock: Option<nat>, clock: real, threads: seq<Thread>)

  datatype Step =
    | Tick(to: real)
    | BeginAdd(i: nat, batch: seq<Item>)
    | BeginSweep(i: nat)
    | BeginLookup(i: nat, name: string)
    | Acquire(i: nat)
    | Perform(i: nat)
    | Release(i: nat)
    | CopyTable(i: nat)
    | CheckOne(i: nat, name: string)
    | EndChecks(i: nat)
    | ReadReservation(i: nat)
    | CheckSeen(i: nat)
    | ReadAgent(i: nat)
    | AskBase(i: nat, found: Option<Item>)

  // ---------- Programs of the critical sections, in the order of the code ----------

  function AddProgram(batch: seq<Item>): seq<Access> {
    if batch == [] then []
    else
      var item := batch[0];
      [SetAgent(item.name, item.network), SetReservation(item.name, item.expiration)] + AddProgram(batch[1..])
  }

  function PopProgram(names: seq<string>, seen: map<string, nat>): seq<Access>
    requires forall n :: n in names ==> n in seen
  {
    if names == [] then []
    else [PopReservation(names[0], seen[names[0]]), PopAgent(names[0])] + PopProgram(names[1..], seen)
  }

  function CacheProgram(found: Item): seq<Access> {
    [SetReservation(found.name, found.expiration), SetAgent(found.name, found.network)]
  }

  function Apply(t: Tables, a: Access): Tables {
    match a
    case SetAgent(n, network) => t.(agents := t.agents[n := network])
    case SetReservation(n, e) => t.(reservations := t.reservations[n := |t.log|], log := t.log + [Write(n, e)])
    case PopReservation(n, _) => t.(reservations := t.reservations - {n})
    case PopAgent(n) => t.(agents := t.agents - {n})
  }

  predicate IsExpired(w: Write, now: real) {
    now > w.expiration
  }

  // ---------- Steps ----------

  predicate Enabled(s: State, step: Step) {
    if step.Tick? then step.to >= s.clock
    else
      step.i < |s.threads| &&
      var me := s.threads[step.i];
      match step
      case BeginAdd(_, batch) => (me.Idle? || me.Done?) && batch != []
      case BeginSweep(_) => me.Idle? || me.Done?
      case BeginLookup(_, _) => me.Idle? || me.Done?
      case Acquire(_) => (me.Ready? || me.SweepWaits?) && s.lock == None
      case Perform(_) => me.Critical? && me.todo != []
      case Release(_) => me.Critical? && me.todo == [] && s.lock == Some(step.i)
      case CopyTable(_) => me.SweepCopies? && s.lock == Some(step.i)
      case CheckOne(_, name) => me.SweepChecks? && name in me.unchecked && name in me.snapshot &&
          me.snapshot[name] < |s.t.log|
      case EndChecks(_) => me.SweepChecks? && me.unchecked == {} && forall n :: n in me.expired ==> n in me.snapshot
      case ReadReservation(_) => me.LookupStarts?
      case CheckSeen(_) => me.LookupSaw? && me.seen < |s.t.log|
      case ReadAgent(_) => me.LookupCurrent?
      case AskBase(_, found) =>
        me.LookupMissed? && (found.Some? ==> found.value.name == me.name && found.value.expiration >= s.clock)
  }

  function Go(s: State, i: nat, next: Thread): State
    requires i < |s.threads|
  {
    s.(threads := s.threads[i := next])
  }

  function Do(s: State, step: Step): State
    requires Enabled(s, step)
  {
    match step
    case Tick(to) => s.(clock := to)
    case BeginAdd(i, batch) => Go(s, i, Ready(AddProgram(batch), Finished))
    case BeginSweep(i) => Go(s, i, SweepWaits)
    case BeginLookup(i, name) => Go(s, i, LookupStarts(name))
    case Acquire(i) =>
      var me := s.threads[i];
      Go(s.(lock := Some(i)), i, if me.Ready? then Critical(me.todo, me.outcome) else SweepCopies)
    case Perform(i) =>
      var me := s.threads[i];
      Go(s.(t := Apply(s.t, me.todo[0])), i, Critical(me.todo[1..], me.outcome))
    case Release(i) => Go(s.(lock := None), i, Done(s.threads[i].outcome))
    case CopyTable(i) => Go(s.(lock := None), i, SweepChecks(s.t.reservations, s.t.reservations.Keys, []))
    case CheckOne(i, name) =>
      var me := s.threads[i];
      var dead := IsExpired(s.t.log[me.snapshot[name]], s.clock);
      Go(s, i, SweepChecks(me.snapshot, me.unchecked - {name}, if dead then me.expired + [name] else me.expired))
    case EndChecks(i) =>
      var me := s.threads[i];
      Go(s, i, if me.expired == [] then Done(Finished) else Ready(PopProgram(me.expired, me.snapshot), Finished))
    case ReadReservation(i) =>
      var name := s.threads[i].name;
      Go(s, i, if name in s.t.reservations then LookupSaw(name, s.t.reservations[name]) else LookupMissed(name))
    case CheckSeen(i) =>
      var me := s.threads[i];
      if IsExpired(s.t.log[me.seen], s.clock)
      then Go(s, i, Ready(PopProgram([me.name], map[me.name := me.seen]), Answered(me.name, None, FromExpiry)))
      else Go(s, i, LookupCurrent(me.name))
    case ReadAgent(i) =>
      var name := s.threads[i].name;
      Go(s, i, Done(Answered(name, if name in s.t.agents then Some(s.t.agents[name]) else None, FromTable)))
    case AskBase(i, found) =>
      var name := s.threads[i].name;
      if found.Some?
      then Go(s, i, Ready(CacheProgram(found.value), Answered(name, Some(found.value.network), FromBase)))
      else Go(s, i, Done(Answered(name, None, FromBase)))
  }

  function Init(n: nat, now: real): State {
    State(Tables(map[], map[], []), None, now, seq(n, _ => Idle))
  }

  /** Every step of the run is enabled where it is taken. */
  predicate Legal(s: State, run: seq<Step>)
    decreases |run|
  {
    run == [] || (Enabled(s, run[0]) && Legal(Do(s, run[0]), run[1..]))
  }

  function After(s: State, run: seq<Step>): State
    requires Legal(s, run)
    decreases |run|
  {
    if run == [] then s else After(Do(s, run[0]), run[1..])
  }

  // ---------- The invariant ----------

  predicate Holds(thread: Thread) {
    thread.Critical? || thread.SweepCopies?
  }

  /** The two accesses that keep the tables together: both tables are written, or both popped. */
  predicate IsPair(a: Access, b: Access) {
    match a
    case SetAgent(n, _) => b.SetReservation? && b.name == n
    case SetReservation(n, _) => b.SetAgent? && b.name == n
    case PopReservation(n, _) => b.PopAgent? && b.name == n
    case PopAgent(_) => false
  }

  predicate Paired(todo: seq<Access>)
    decreases |todo|
  {
    todo == [] || (|todo| >= 2 && IsPair(todo[0], todo[1]) && Paired(todo[2..]))
  }

  /** In every pair the agent is written before its reservation. */
  predicate AgentsFirst(todo: seq<Access>)
    decreases |todo|
  {
    todo == [] || (|todo| >= 2 && !todo[0].SetReservation? && AgentsFirst(todo[2..]))
  }

  predicate FoundInBase(outcome: Outcome, name: string) {
    outcome.Answered? && outcome.name == name && outcome.network.Some? && outcome.source == FromBase
  }

  /** Only a lookup that got its answer from the base writes a reservation before its agent. */
  predicate OutcomeFits(todo: seq<Access>, outcome: Outcome) {
    if |todo| % 2 == 0 then AgentsFirst(todo) || (|todo| == 2 && FoundInBase(outcome, todo[0].name))
    else AgentsFirst(todo[1..]) && (todo[0].SetAgent? ==> FoundInBase(outcome, todo[0].name))
  }

  lemma HalfOfPair(a: Access, b: Access, rest: seq<Access>, outcome: Outcome)
    requires IsPair(a, b) && AgentsFirst(rest)
    requires a.SetReservation? ==> FoundInBase(outcome, a.name)
    ensures AgentsFirst(([b] + rest)[1..]) && (b.SetAgent? ==> FoundInBase(outcome, b.name))
  {
    assert ([b] + rest)[1..] == rest;
  }

  lemma OddAfterEven(n: nat)
    requires n > 0
    ensures (n - 1) % 2 == 0 <==> n % 2 == 1
  {
  }

  lemma OutcomeStillFits(todo: seq<Access>, outcome: Outcome)
    requires todo != [] && OutcomeFits(todo, outcome) && (|todo| % 2 == 0 ==> Paired(todo))
    ensures OutcomeFits(todo[1..], outcome)
  {
    OddAfterEven(|todo|);
    if |todo| % 2 == 0 {
      var rest := todo[2..];
      assert todo[1..] == [todo[1]] + rest;
      assert |todo| == 2 ==> rest == [];
      HalfOfPair(todo[0], todo[1], rest, outcome);
    }
  }

  /** What the lock holder's remaining accesses say about the key sets: they agree between two
      pairs, and inside a pair they differ by the name of the access that is left of it. */
  predicate Consistent(agents: set<string>, reservations: set<string>, todo: seq<Access>) {
    if |todo| % 2 == 0 then agents == reservations && Paired(todo)
    else
      && Paired(todo[1..])
      && match todo[0]
         case SetAgent(n, _) => reservations == agents + {n}
         case SetReservation(n, _) => agents == reservations + {n}
         case PopAgent(n) => reservations == agents - {n}
         case PopReservation(_, _) => false
  }

  /** A write that some thread saw for a name: it was made for that name, and the table shows it
      or a later one, or nothing. */
  predicate Seen(t: Tables, name: string, at: nat) {
    at < |t.log| && t.log[at].name == name && (name in t.reservations ==> at <= t.reservations[name])
  }

  predicate SeenExpired(t: Tables, now: real, name: string, at: nat) {
    Seen(t, name, at) && IsExpired(t.log[at], now)
  }

  ghost predicate PopsExpired(t: Tables, now: real, todo: seq<Access>) {
    forall a :: a in todo && a.PopReservation? ==> SeenExpired(t, now, a.name, a.seen)
  }

  /** What holds of a thread that waits or works outside the lock. */
  ghost predicate ThreadOk(t: Tables, now: real, thread: Thread) {
    match thread
    case Ready(todo, outcome) => EvenPairs(todo) && PopsExpired(t, now, todo) && OutcomeFits(todo, outcome)
    case Critical(todo, outcome) => PopsExpired(t, now, todo) && OutcomeFits(todo, outcome)
    case SweepChecks(snapshot, unchecked, expired) =>
      && unchecked <= snapshot.Keys
      && (forall n :: n in snapshot ==> Seen(t, n, snapshot[n]))
      && (forall n :: n in expired ==> n in snapshot && SeenExpired(t, now, n, snapshot[n]))
    case LookupSaw(name, seen) => Seen(t, name, seen)
    case _ => true
  }

  /** No write of the name after position `at` of the log. */
  predicate LastWrite(log: seq<Write>, name: string, at: nat) {
    forall k :: at < k < |log| ==> log[k].name != name
  }

  /** A reservation in the table is the last write of its name. */
  ghost predicate TableOk(t: Tables) {
    forall n :: n in t.reservations ==>
      var at := t.reservations[n];
      at < |t.log| && t.log[at].name == n && LastWrite(t.log, n, at)
  }

  ghost predicate Inv(s: State) {
    && TableOk(s.t)
    && (forall i :: 0 <= i < |s.threads| ==> ThreadOk(s.t, s.clock, s.threads[i]))
    && (forall i :: 0 <= i < |s.threads| ==> (Holds(s.threads[i]) <==> s.lock == Some(i)))
    && (s.lock.Some? ==> s.lock.value < |s.threads|)
    && (if s.lock.Some? && s.threads[s.lock.value].Critical?
        then Consistent(s.t.agents.Keys, s.t.reservations.Keys, s.threads[s.lock.value].todo)
        else s.t.agents.Keys == s.t.reservations.Keys)
  }

  predicate EvenPairs(todo: seq<Access>) {
    |todo| % 2 == 0 && Paired(todo)
  }

  lemma OnePairMore(a: Access, b: Access, rest: seq<Access>)
    requires IsPair(a, b) && EvenPairs(rest)
    ensures EvenPairs([a, b] + rest) && (AgentsFirst(rest) && !a.SetReservation? ==> AgentsFirst([a, b] + rest))
    ensures forall x :: x in [a, b] + rest ==> x == a || x == b || x in rest
  {
    assert ([a, b] + rest)[2..] == rest;
  }

  lemma {:induction false} AddIsPaired(batch: seq<Item>)
    ensures EvenPairs(AddProgram(batch)) && AgentsFirst(AddProgram(batch))
    ensures forall a :: a in AddProgram(batch) ==> !a.PopReservation?
    decreases |batch|
  {
    if batch == [] {
    } else {
      AddIsPaired(batch[1..]);
      var item := batch[0];
      OnePairMore(SetAgent(item.name, item.network), SetReservation(item.name, item.expiration),
          AddProgram(batch[1..]));
    }
  }

  /** The pops of a program carry the positions that were seen. */
  ghost predicate PopsSeen(todo: seq<Access>, seen: map<string, nat>, names: seq<string>) {
    forall a :: a in todo && a.PopReservation? ==> a.name in names && a.name in seen && a.seen == seen[a.name]
  }

  lemma {:induction false} PopIsPaired(names: seq<string>, seen: map<string, nat>)
    requires forall n :: n in names ==> n in seen
    ensures EvenPairs(PopProgram(names, seen)) && AgentsFirst(PopProgram(names, seen))
    ensures PopsSeen(PopProgram(names, seen), seen, names)
    decreases |names|
  {
    if names == [] {
    } else {
      var name, rest := names[0], PopProgram(names[1..], seen);
      PopIsPaired(names[1..], seen);
      assert name in names && forall n :: n in names[1..] ==> n in names;
      OnePairMore(PopReservation(name, seen[name]), PopAgent(name), rest);
    }
  }

  /** What a thread saw stays seen while tables change under it and time passes. */
  lemma ThreadStaysOk(t: Tables, now: real, a: Access, later: real, thread: Thread)
    requires later >= now && ThreadOk(t, now, thread)
    ensures ThreadOk(t, later, thread) && ThreadOk(Apply(t, a), later, thread)
  {
    assert forall n, at: nat :: Seen(t, n, at) ==> Seen(Apply(t, a), n, at) && Apply(t, a).log[at] == t.log[at];
  }

  lemma TableStaysOk(t: Tables, a: Access)
    requires TableOk(t)
    ensures TableOk(Apply(t, a))
  {
    var t' := Apply(t, a);
    forall n | n in t'.reservations
      ensures t'.reservations[n] < |t'.log| && t'.log[t'.reservations[n]].name == n
      ensures LastWrite(t'.log, n, t'.reservations[n])
    {
    }
  }

  /** One access takes the lock holder from between two pairs into one, or out of it. */
  lemma AccessKeepsConsistent(t: Tables, todo: seq<Access>)
    requires todo != [] && Consistent(t.agents.Keys, t.reservations.Keys, todo)
    ensures var t' := Apply(t, todo[0]); Consistent(t'.agents.Keys, t'.reservations.Keys, todo[1..])
  {
    var a, rest := todo[0], todo[1..];
    var t' := Apply(t, a);
    assert t'.agents.Keys == match a
                             case SetAgent(n, _) => t.agents.Keys + {n}
                             case PopAgent(n) => t.agents.Keys - {n}
                             case _ => t.agents.Keys;
    assert t'.reservations.Keys == match a
                                   case SetReservation(n, _) => t.reservations.Keys + {n}
                                   case PopReservation(n, _) => t.reservations.Keys - {n}
                                   case _ => t.reservations.Keys;
    if |todo| % 2 == 0 {
      assert rest[0] == todo[1] && rest[1..] == todo[2..];
    }
  }

  /** Perform one access under the lock. */
  lemma PerformKeepsInv(s: State, i: nat)
    requires Inv(s) && Enabled(s, Perform(i))
    ensures Inv(Do(s, Perform(i)))
  {
    var a, rest := s.threads[i].todo[0], s.threads[i].todo[1..];
    var s' := Do(s, Perform(i));
    TableStaysOk(s.t, a);
    AccessKeepsConsistent(s.t, s.threads[i].todo);
    assert ThreadOk(s.t, s.clock, s.threads[i]);
    OutcomeStillFits(s.threads[i].todo, s.threads[i].outcome);
    forall j | 0 <= j < |s.threads| ensures ThreadOk(s'.t, s'.clock, s'.threads[j]) {
      ThreadStaysOk(s.t, s.clock, a, s.clock, s.threads[j]);
      assert forall b :: b in rest ==> b in s.threads[i].todo;
    }
  }

  lemma StartsProgram(s: State, step: Step)
    requires Inv(s) && Enabled(s, step) && (step.BeginAdd? || step.EndChecks? || step.CheckSeen? || step.AskBase?)
    ensures ThreadOk(s.t, s.clock, Do(s, step).threads[step.i])
  {
    var me := s.threads[step.i];
    assert ThreadOk(s.t, s.clock, me);
    match step {
      case BeginAdd(_, batch) => AddIsPaired(batch);
      case EndChecks(_) => PopIsPaired(me.expired, me.snapshot);
      case CheckSeen(_) => PopIsPaired([me.name], map[me.name := me.seen]);
      case AskBase(_, found) =>
    }
  }

  /** A thread goes on without touching the lock. */
  lemma OutsideKeepsInv(s: State, i: nat, next: Thread)
    requires Inv(s) && i < |s.threads| && !Holds(s.threads[i]) && !Holds(next) && ThreadOk(s.t, s.clock, next)
    ensures Inv(Go(s, i, next))
  {
  }

  lemma EnteringKeepsInv(s: State, i: nat, next: Thread)
    requires Inv(s) && i < |s.threads| && s.lock == None && Holds(next) && ThreadOk(s.t, s.clock, next)
    requires next.Critical? ==> EvenPairs(next.todo)
    ensures Inv(Go(s.(lock := Some(i)), i, next))
  {
  }

  lemma LeavingKeepsInv(s: State, i: nat, next: Thread)
    requires Inv(s) && i < |s.threads| && s.lock == Some(i) && !Holds(next) && ThreadOk(s.t, s.clock, next)
    requires s.t.agents.Keys == s.t.reservations.Keys
    ensures Inv(Go(s.(lock := None), i, next))
  {
  }

  lemma TickKeepsInv(s: State, to: real)
    requires Inv(s) && to >= s.clock
    ensures Inv(s.(clock := to))
  {
    forall j | 0 <= j < |s.threads| ensures ThreadOk(s.t, to, s.threads[j]) {
      ThreadStaysOk(s.t, s.clock, PopAgent(""), to, s.threads[j]);
    }
  }

  lemma StepKeepsInv(s: State, step: Step)
    requires Inv(s) && Enabled(s, step)
    ensures Inv(Do(s, step))
  {
    if step.Tick? {
      TickKeepsInv(s, step.to);
    } else if step.Perform? {
      PerformKeepsInv(s, step.i);
    } else {
      var me, next := s.threads[step.i], Do(s, step).threads[step.i];
      assert ThreadOk(s.t, s.clock, me);
      if step.BeginAdd? || step.EndChecks? || step.CheckSeen? || step.AskBase? {
        StartsProgram(s, step);
        OutsideKeepsInv(s, step.i, next);
      } else if step.Acquire? {
        EnteringKeepsInv(s, step.i, next);
      } else if step.Release? || step.CopyTable? {
        LeavingKeepsInv(s, step.i, next);
      } else {
        OutsideKeepsInv(s, step.i, next);
      }
    }
  }

  lemma {:induction false} RunKeepsInv(s: State, run: seq<Step>)
    requires Inv(s) && Legal(s, run)
    ensures Inv(After(s, run))
    decreases |run|
  {
    if run == [] {
    } else {
      StepKeepsInv(s, run[0]);
      RunKeepsInv(Do(s, run[0]), run[1..]);
    }
  }

  // ---------- Results over every run of any number of threads ----------

  /** Whenever the lock is free, agents and reservations are present or absent together. */
  lemma TablesAgreeWhenUnlocked(n: nat, now: real, run: seq<Step>)
    requires Legal(Init(n, now), run) && After(Init(n, now), run).lock == None
    ensures var t := After(Init(n, now), run).t; t.agents.Keys == t.reservations.Keys
  {
    RunKeepsInv(Init(n, now), run);
  }

  /** At most one thread is inside a critical section, and it is the one the lock names. */
  lemma OneThreadInside(n: nat, now: real, run: seq<Step>, i: nat, j: nat)
    requires Legal(Init(n, now), run) && i < n && j < n
    ensures var s := After(Init(n, now), run);
            |s.threads| == n && (Holds(s.threads[i]) && Holds(s.threads[j]) ==> i == j)
  {
    RunKeepsInv(Init(n, now), run);
    RunKeepsThreads(Init(n, now), run);
  }

  lemma {:induction false} RunKeepsThreads(s: State, run: seq<Step>)
    requires Legal(s, run)
    ensures |After(s, run).threads| == |s.threads|
    decreases |run|
  {
    if run == [] {
    } else {
      RunKeepsThreads(Do(s, run[0]), run[1..]);
    }
  }

  /** The next access of a thread is a pop that finds an entry in the table. */
  predicate AboutToPop(s: State, i: nat) {
    i < |s.threads| && s.threads[i].Critical? && s.threads[i].todo != []
    && s.threads[i].todo[0].PopReservation? && s.threads[i].todo[0].name in s.t.reservations
  }

  /** After the check at `seen`, position `k` of the log is the last write of the name, and still
      current. */
  predicate LiveRewrite(s: State, name: string, seen: nat, k: nat) {
    seen < k < |s.t.log| && s.t.log[k].name == name && LastWrite(s.t.log, name, k) && s.clock <= s.t.log[k].expiration
  }

  /** A pop removes the very entry that was found expired exactly when the name was not written
      after that. It removes a current reservation exactly when the last write of the name came
      after the check and is still current. */
  lemma PopRemovesCurrentIffRewritten(n: nat, now: real, run: seq<Step>, i: nat)
    requires Legal(Init(n, now), run) && AboutToPop(After(Init(n, now), run), i)
    ensures var s := After(Init(n, now), run); var pop := s.threads[i].todo[0];
            var shown := s.t.reservations[pop.name];
            && pop.seen <= shown < |s.t.log|
            && (shown == pop.seen <==> LastWrite(s.t.log, pop.name, pop.seen))
            && (shown == pop.seen ==> s.clock > s.t.log[shown].expiration)
            && (s.clock <= s.t.log[shown].expiration <==> exists k: nat :: LiveRewrite(s, pop.name, pop.seen, k))
  {
    RunKeepsInv(Init(n, now), run);
    var s := After(Init(n, now), run);
    var pop := s.threads[i].todo[0];
    assert ThreadOk(s.t, s.clock, s.threads[i]);
    assert pop in s.threads[i].todo;
    var shown := s.t.reservations[pop.name];
    if !IsExpired(s.t.log[shown], s.clock) {
      assert LiveRewrite(s, pop.name, pop.seen, shown);
    }
    if k: nat :| LiveRewrite(s, pop.name, pop.seen, k) {
      assert k == shown;
    }
  }

  /** Every write of a name gives it the same expiration: it was reserved once, and may have been
      cached from the base any number of times. */
  predicate ReservedOnce(log: seq<Write>) {
    forall j, k :: 0 <= j < |log| && 0 <= k < |log| && log[j].name == log[k].name ==>
      log[j].expiration == log[k].expiration
  }

  /** In a run in which every name is reserved once, as generated ids are, no pop ever removes a
      reservation that has not expired. */
  lemma ReservedOnceIsNeverLost(n: nat, now: real, run: seq<Step>, i: nat)
    requires Legal(Init(n, now), run) && AboutToPop(After(Init(n, now), run), i)
    requires ReservedOnce(After(Init(n, now), run).t.log)
    ensures var s := After(Init(n, now), run); var shown := s.t.reservations[s.threads[i].todo[0].name];
            shown < |s.t.log| && s.clock > s.t.log[shown].expiration
  {
    RunKeepsInv(Init(n, now), run);
    var s := After(Init(n, now), run);
    var pop := s.threads[i].todo[0];
    assert ThreadOk(s.t, s.clock, s.threads[i]) && pop in s.threads[i].todo;
    assert SeenExpired(s.t, s.clock, pop.name, pop.seen);
    var shown := s.t.reservations[pop.name];
    assert s.t.log[shown].name == pop.name == s.t.log[pop.seen].name;
  }

  /** A thread has written the reservation of a name and is about to write its agent. */
  predicate HalfCached(s: State, name: string) {
    s.lock.Some? && s.lock.value < |s.threads| &&
    var holder := s.threads[s.lock.value];
    holder.Critical? && |holder.todo| % 2 == 1 && holder.todo[0].SetAgent? && holder.todo[0].name == name
  }

  /** A name without an agent has a reservation exactly while the lock holder is half way through
      caching it; and whoever is half way is a lookup that got the network from the base and has
      written the reservation. */
  lemma ReservedWithoutAgentIffHalfCached(n: nat, now: real, run: seq<Step>, name: string)
    requires Legal(Init(n, now), run)
    ensures var s := After(Init(n, now), run);
            && (HalfCached(s, name) ==> name in s.t.reservations && FoundInBase(s.threads[s.lock.value].outcome, name))
            && (name !in s.t.agents ==> (name in s.t.reservations <==> HalfCached(s, name)))
  {
    RunKeepsInv(Init(n, now), run);
    var s := After(Init(n, now), run);
    assert name in s.t.agents <==> name in s.t.agents.Keys;
    assert name in s.t.reservations <==> name in s.t.reservations.Keys;
  }

  /** When a lookup that saw a current reservation answers nothing, the reservation is still in the
      table exactly when another thread is half way through caching the name; otherwise it was
      popped meanwhile. As long as the reservation is there and nobody is half way, it is a hit. */
  lemma LookupMissesIff(n: nat, now: real, run: seq<Step>, i: nat)
    requires Legal(Init(n, now), run) && Enabled(After(Init(n, now), run), ReadAgent(i))
    ensures var s := After(Init(n, now), run); var name := s.threads[i].name; var s' := Do(s, ReadAgent(i));
            var missed := s'.threads[i] == Done(Answered(name, None, FromTable));
            && (missed ==> (name in s.t.reservations <==> HalfCached(s, name)))
            && (name in s.t.reservations && !HalfCached(s, name) ==> !missed)
            && (!missed ==>
                name in s.t.agents && s'.threads[i] == Done(Answered(name, Some(s.t.agents[name]), FromTable)))
  {
    ReservedWithoutAgentIffHalfCached(n, now, run, After(Init(n, now), run).threads[i].name);
  }

  // ---------- The rewrite that the sweeper does not see ----------

  lemma {:induction false} RunOneMore(s: State, run: seq<Step>, step: Step)
    requires Legal(s, run) && Enabled(After(s, run), step)
    ensures Legal(s, run + [step]) && After(s, run + [step]) == Do(After(s, run), step)
    decreases |run|
  {
    if run == [] {
      assert run + [step] == [step] && [step][1..] == [];
    } else {
      assert (run + [step])[1..] == run[1..] + [step];
      RunOneMore(Do(s, run[0]), run[1..], step);
    }
  }

  /** A thread that is free adds one reservation without being interrupted. */
  lemma AddUninterrupted(s0: State, run: seq<Step>, i: nat, item: Item) returns (longer: seq<Step>)
    requires Legal(s0, run) && i < |After(s0, run).threads|
    requires After(s0, run).lock == None && (After(s0, run).threads[i].Idle? || After(s0, run).threads[i].Done?)
    ensures Legal(s0, longer)
    ensures var s, s' := After(s0, run), After(s0, longer); var t := s.t;
            s' == Go(s.(t := Tables(t.agents[item.name := item.network], t.reservations[item.name := |t.log|],
                                    t.log + [Write(item.name, item.expiration)])), i, Done(Finished))
  {
    var s := After(s0, run);
    var program := AddProgram([item]);
    assert [item][1..] == [] && AddProgram([item][1..]) == [];
    assert program == [SetAgent(item.name, item.network), SetReservation(item.name, item.expiration)];
    assert program[1..] == [SetReservation(item.name, item.expiration)] && program[1..][1..] == [];
    RunOneMore(s0, run, BeginAdd(i, [item]));
    longer := run + [BeginAdd(i, [item])];
    assert After(s0, longer).threads[i] == Ready(program, Finished);
    RunOneMore(s0, longer, Acquire(i));
    longer := longer + [Acquire(i)];
    assert After(s0, longer).threads[i] == Critical(program, Finished);
    RunOneMore(s0, longer, Perform(i));
    longer := longer + [Perform(i)];
    assert After(s0, longer).threads[i] == Critical(program[1..], Finished);
    RunOneMore(s0, longer, Perform(i));
    longer := longer + [Perform(i)];
    assert After(s0, longer).threads[i] == Critical([], Finished);
    RunOneMore(s0, longer, Release(i));
    longer := longer + [Release(i)];
    assert After(s0, longer).threads == s.threads[i := Done(Finished)];
  }

  /** A sweep that finds the only reservation expired, up to the point where it wants the lock. */
  lemma SweepUntilReady(s0: State, run: seq<Step>, i: nat, name: string) returns (longer: seq<Step>)
    requires Legal(s0, run) && i < |After(s0, run).threads| && After(s0, run).lock == None &&
        After(s0, run).threads[i].Idle?
    requires After(s0, run).t.reservations.Keys == {name}
    requires var s := After(s0, run); var at := s.t.reservations[name];
             at < |s.t.log| && IsExpired(s.t.log[at], s.clock)
    ensures Legal(s0, longer)
    ensures var s := After(s0, run);
            After(s0, longer) == Go(s, i,
                Ready([PopReservation(name, s.t.reservations[name]), PopAgent(name)], Finished))
  {
    var s := After(s0, run);
    var table := s.t.reservations;
    RunOneMore(s0, run, BeginSweep(i));
    longer := run + [BeginSweep(i)];
    RunOneMore(s0, longer, Acquire(i));
    longer := longer + [Acquire(i)];
    RunOneMore(s0, longer, CopyTable(i));
    longer := longer + [CopyTable(i)];
    assert After(s0, longer) == Go(s, i, SweepChecks(table, table.Keys, []));
    assert {name} - {name} == {} && [] + [name] == [name];
    RunOneMore(s0, longer, CheckOne(i, name));
    longer := longer + [CheckOne(i, name)];
    assert After(s0, longer) == Go(s, i, SweepChecks(table, {}, [name]));
    RunOneMore(s0, longer, EndChecks(i));
    longer := longer + [EndChecks(i)];
    assert [name][1..] == [];
    assert PopProgram([name], table) == [PopReservation(name, table[name]), PopAgent(name)];
  }

  /** A sweeper that waits with one name to pop does so without being interrupted. */
  lemma PopUninterrupted(s0: State, run: seq<Step>, i: nat, name: string, seen: nat) returns (longer: seq<Step>)
    requires Legal(s0, run) && i < |After(s0, run).threads| && After(s0, run).lock == None
    requires After(s0, run).threads[i] == Ready([PopReservation(name, seen), PopAgent(name)], Finished)
    ensures Legal(s0, longer)
    ensures var s := After(s0, run); var t := s.t;
            After(s0, longer) == Go(s.(t := Tables(t.agents - {name}, t.reservations - {name}, t.log)), i,
                Done(Finished))
  {
    var s := After(s0, run);
    var program := [PopReservation(name, seen), PopAgent(name)];
    assert program[1..] == [PopAgent(name)] && program[1..][1..] == [];
    RunOneMore(s0, run, Acquire(i));
    longer := run + [Acquire(i)];
    assert After(s0, longer).threads[i] == Critical(program, Finished);
    RunOneMore(s0, longer, Perform(i));
    longer := longer + [Perform(i)];
    assert After(s0, longer).threads[i] == Critical(program[1..], Finished);
    RunOneMore(s0, longer, Perform(i));
    longer := longer + [Perform(i)];
    assert After(s0, longer).threads[i] == Critical([], Finished);
    RunOneMore(s0, longer, Release(i));
    longer := longer + [Release(i)];
    assert After(s0, longer).threads == s.threads[i := Done(Finished)];
  }

  /** The pop does not look again: a name that is added anew between the check and the pop is gone
      afterwards, long before its new reservation expires. */
  lemma RewrittenReservationIsLost(name: string) returns (run: seq<Step>)
    ensures Legal(Init(2, 0.0), run)
    ensures var s := After(Init(2, 0.0), run);
            && s.t.log == [Write(name, 1.0), Write(name, 9.0)] && s.clock == 2.0 && s.lock == None
            && name !in s.t.reservations && name !in s.t.agents
            && s.threads == [Done(Finished), Done(Finished)]
  {
    var s0 := Init(2, 0.0);
    run := AddUninterrupted(s0, [], 0, Item(name, 1.0, 1));
    RunOneMore(s0, run, Tick(2.0));
    run := run + [Tick(2.0)];
    run := SweepUntilReady(s0, run, 1, name);
    run := AddUninterrupted(s0, run, 0, Item(name, 9.0, 2));
    assert After(s0, run).t.log == [Write(name, 1.0), Write(name, 9.0)];
    run := PopUninterrupted(s0, run, 1, name, 0);
  }

  /** A lookup that got the network from the base has written the reservation and not the agent. */
  function CachingState(name: string): State {
    var t := Tables(map[], map[name := 0], [Write(name, 9.0)]);
    Go(Init(2, 0.0).(t := t, lock := Some(0)), 0, Critical([SetAgent(name, 1)], Answered(name, Some(1), FromBase)))
  }

  lemma CachesHalf(name: string) returns (run: seq<Step>)
    ensures Legal(Init(2, 0.0), run) && After(Init(2, 0.0), run) == CachingState(name)
  {
    var s0 := Init(2, 0.0);
    var found := Item(name, 9.0, 1);
    var program, answer := CacheProgram(found), Answered(name, Some(1), FromBase);
    run := [];
    var steps := [BeginLookup(0, name), ReadReservation(0), AskBase(0, Some(found)), Acquire(0), Perform(0)];
    for k := 0 to 5
      invariant Legal(s0, run)
      invariant After(s0, run) == match k
                                  case 0 => s0
                                  case 1 => Go(s0, 0, LookupStarts(name))
                                  case 2 => Go(s0, 0, LookupMissed(name))
                                  case 3 => Go(s0, 0, Ready(program, answer))
                                  case 4 => Go(s0.(lock := Some(0)), 0, Critical(program, answer))
                                  case _ => CachingState(name)
    {
      RunOneMore(s0, run, steps[k]);
      run := run + [steps[k]];
    }
  }

  /** Caching writes the reservation before the agent, and lookups do not take the lock: while one
      lookup, which got the network from the base, is between its two writes, another one sees the
      current reservation, finds no agent and answers nothing. */
  lemma LookupCanMissWhileCaching(name: string) returns (run: seq<Step>)
    ensures Legal(Init(2, 0.0), run)
    ensures var s := After(Init(2, 0.0), run);
            && s.threads == [Critical([SetAgent(name, 1)], Answered(name, Some(1), FromBase)),
                             Done(Answered(name, None, FromTable))]
            && name in s.t.reservations && s.t.reservations[name] == 0
            && s.t.log == [Write(name, 9.0)] && s.clock == 0.0
  {
    var s0, cached := Init(2, 0.0), CachingState(name);
    run := CachesHalf(name);
    var steps := [BeginLookup(1, name), ReadReservation(1), CheckSeen(1), ReadAgent(1)];
    for k := 0 to 4
      invariant Legal(s0, run)
      invariant After(s0, run) == match k
                                  case 0 => cached
                                  case 1 => Go(cached, 1, LookupStarts(name))
                                  case 2 => Go(cached, 1, LookupSaw(name, 0))
                                  case 3 => Go(cached, 1, LookupCurrent(name))
                                  case _ => Go(cached, 1, Done(Answered(name, None, FromTable)))
    {
      RunOneMore(s0, run, steps[k]);
      run := run + [steps[k]];
    }
  }
}
