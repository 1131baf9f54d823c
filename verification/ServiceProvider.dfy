/** neuro_san/service/generic/agent_service_provider.py and async_agent_service_provider.py

    A service that is made on first use by whichever thread comes first: double-checked locking,
    and a reset under the same lock. Steps are single reads and writes of the field and of the
    lock, so any number of threads interleave freely. */
module ServiceProvider {
  import opened Wrappers

  /** Where a thread is. `since` is the number of resets when it last knew of an instance. */
  datatype Thread =
    | Idle
    | GetStarts
    | GetWaits                      // saw no instance, wants the lock
    | GetInside                     // has the lock, looks again
    | GetBuilds                     // still none: constructs
    | GetBuilt(id: nat)             // constructed, not stored yet
    | GetLeaves(since: nat)         // gives the lock back
    | GetReturns(since: nat)        // reads the field once more for its caller
    | Done(result: Option<nat>, since: nat, at: nat, stored: Option<nat>)  // `at`: resets when it read
    | ResetWaits
    | ResetInside
    | ResetLeaves

  /** Instances are numbered in the order of construction; `makers` are the threads that made
      them, and `stored` is how many resets there had been when an instance was stored last. */
  datatype State = State(
    instance: Option<nat>,
    lock: Option<nat>,
    makers: seq<nat>,
    resets: nat,
    stored: Option<nat>,
    threads: seq<Thread>)

  datatype Step = BeginGet(i: nat) | BeginReset(i: nat) | Advance(i: nat)

  predicate Holds(t: Thread) {
    t.GetInside? || t.GetBuilds? || t.GetBuilt? || t.GetLeaves? || t.ResetInside? || t.ResetLeaves?
  }

  predicate Enabled(s: State, step: Step) {
    step.i < |s.threads| &&
    var me := s.threads[step.i];
    match step
    case Advance(_) => !me.Idle? && !me.Done? && (me.GetWaits? || me.ResetWaits? ==> s.lock == None)
    case _ => me.Idle? || me.Done?
  }

  function Go(s: State, i: nat, next: Thread): State
    requires i < |s.threads|
  {
    s.(threads := s.threads[i := next])
  }

  function Do(s: State, step: Step): State
    requires Enabled(s, step)
  {
    var i := step.i;
    match step
    case BeginGet(_) => Go(s, i, GetStarts)
    case BeginReset(_) => Go(s, i, ResetWaits)
    case Advance(_) =>
      match s.threads[i]
      case GetStarts => Go(s, i, if s.instance == None then GetWaits else GetReturns(s.resets))
      case GetWaits => Go(s.(lock := Some(i)), i, GetInside)
      case GetInside => Go(s, i, if s.instance == None then GetBuilds else GetLeaves(s.resets))
      case GetBuilds => Go(s.(makers := s.makers + [i]), i, GetBuilt(|s.makers|))
      case GetBuilt(id) => Go(s.(instance := Some(id), stored := Some(s.resets)), i, GetLeaves(s.resets))
      case GetLeaves(since) => Go(s.(lock := None), i, GetReturns(since))
      case GetReturns(since) => Go(s, i, Done(s.instance, since, s.resets, s.stored))
      case ResetWaits => Go(s.(lock := Some(i)), i, ResetInside)
      case ResetInside => Go(s.(instance := None, resets := s.resets + 1), i, ResetLeaves)
      case ResetLeaves => Go(s.(lock := None), i, Idle)
      case _ => s
  }

  function Init(n: nat): State {
    State(None, None, [], 0, None, seq(n, _ => Idle))
  }

  predicate Legal(s: State, run: seq<Step>)
    decreases |run|
  {
    run == [] || (Enabled(s, run[0]) && Legal(Do(s, run[0]), run[1..]))
  }

  function After(s: State, run: seq<Step>): State
    requires Legal(s, run)
    decreases |run|
  {
    if run == [] then s else After(Do(s, run[0]), run[1..])
  }

  // ---------- The invariant ----------

  /** An instance exists, or is about to be stored. */
  predicate HasOne(s: State) {
    s.instance.Some? || (s.lock.Some? && s.lock.value < |s.threads| && s.threads[s.lock.value].GetBuilt?)
  }

  /** What a thread that knew of an instance can still rely on. */
  predicate KnowsOne(s: State, since: nat) {
    s.stored.Some? && (since == s.resets ==> s.instance.Some?)
  }

  predicate ThreadOk(s: State, t: Thread) {
    match t
    case GetBuilds => s.instance == None
    case GetBuilt(id) => s.instance == None && id < |s.makers|
    case GetLeaves(since) => since <= s.resets && KnowsOne(s, since)
    case GetReturns(since) => since <= s.resets && KnowsOne(s, since)
    case Done(result, since, at, stored) =>
      && since <= at <= s.resets && (result == None ==> since < at) && (result.Some? ==> result.value < |s.makers|)
      && s.stored.Some? && stored.Some? && stored.value <= at && (result == None <==> stored.value < at)
    case _ => true
  }

  predicate ThreadsOk(s: State) {
    forall i :: 0 <= i < |s.threads| ==> ThreadOk(s, s.threads[i])
  }

  /** Exactly the thread that the lock names is between taking and giving it back. */
  predicate LockOk(s: State) {
    forall i :: 0 <= i < |s.threads| ==> (Holds(s.threads[i]) <==> s.lock == Some(i))
  }

  predicate CountOk(s: State) {
    && (s.instance.Some? ==> s.instance.value < |s.makers|)
    && |s.makers| <= s.resets + (if HasOne(s) then 1 else 0)
    && (s.stored.Some? ==> s.stored.value <= s.resets)
    && (s.instance.Some? <==> s.stored == Some(s.resets))
  }

  predicate Inv(s: State) {
    ThreadsOk(s) && LockOk(s) && CountOk(s)
  }

  lemma StepKeepsLock(s: State, step: Step)
    requires Inv(s) && Enabled(s, step)
    ensures LockOk(Do(s, step))
  {
  }

  lemma OwnThreadStaysOk(s: State, step: Step)
    requires Inv(s) && Enabled(s, step)
    ensures ThreadOk(Do(s, step), Do(s, step).threads[step.i])
  {
    assert ThreadOk(s, s.threads[step.i]);
  }

  lemma OtherThreadStaysOk(s: State, step: Step, j: nat)
    requires Inv(s) && Enabled(s, step) && j < |s.threads| && j != step.i
    ensures ThreadOk(Do(s, step), Do(s, step).threads[j])
  {
    assert ThreadOk(s, s.threads[j]) && (Holds(s.threads[j]) <==> s.lock == Some(j));
    assert Holds(s.threads[step.i]) <==> s.lock == Some(step.i);
  }

  lemma StepKeepsThreads(s: State, step: Step)
    requires Inv(s) && Enabled(s, step)
    ensures ThreadsOk(Do(s, step))
  {
    var s' := Do(s, step);
    forall j | 0 <= j < |s'.threads| ensures ThreadOk(s', s'.threads[j]) {
      if j == step.i { OwnThreadStaysOk(s, step); } else { OtherThreadStaysOk(s, step, j); }
    }
  }

  lemma StepKeepsCount(s: State, step: Step)
    requires Inv(s) && Enabled(s, step)
    ensures CountOk(Do(s, step))
  {
    assert s.lock.Some? && s.lock.value < |s.threads| ==> Holds(s.threads[s.lock.value]);
  }

  lemma StepKeepsInv(s: State, step: Step)
    requires Inv(s) && Enabled(s, step)
    ensures Inv(Do(s, step))
    ensures s.resets <= Do(s, step).resets && |Do(s, step).threads| == |s.threads|
  {
    StepKeepsLock(s, step);
    StepKeepsThreads(s, step);
    StepKeepsCount(s, step);
  }

  lemma {:induction false} RunKeepsInv(s: State, run: seq<Step>)
    requires Inv(s) && Legal(s, run)
    ensures Inv(After(s, run)) && |After(s, run).threads| == |s.threads|
    decreases |run|
  {
    if run == [] {
    } else {
      StepKeepsInv(s, run[0]);
      RunKeepsInv(Do(s, run[0]), run[1..]);
    }
  }

  // ---------- Results over every run of any number of threads ----------

  /** Constructions never exceed resets by more than one. */
  lemma ConstructionsAreBounded(n: nat, run: seq<Step>)
    requires Legal(Init(n), run)
    ensures |After(Init(n), run).makers| <= After(Init(n), run).resets + 1
  {
    RunKeepsInv(Init(n), run);
  }

  /** While nothing has been reset, every caller that has returned got the one instance there is. */
  lemma OneInstanceWithoutReset(n: nat, run: seq<Step>, i: nat)
    requires Legal(Init(n), run) && After(Init(n), run).resets == 0
    requires i < |After(Init(n), run).threads| && After(Init(n), run).threads[i].Done?
    ensures var s := After(Init(n), run);
            |s.makers| == 1 && s.threads[i].result == Some(0) && s.instance == Some(0)
  {
    RunKeepsInv(Init(n), run);
    assert ThreadOk(After(Init(n), run), After(Init(n), run).threads[i]);
  }

  /** A caller gets a constructed instance, unless there was a reset after the last instance was
      stored and before the caller read the field again: exactly then it gets None. Such a reset
      also came after the caller itself knew of an instance. */
  lemma NoneIffResetSinceStore(n: nat, run: seq<Step>, i: nat)
    requires Legal(Init(n), run) && i < |After(Init(n), run).threads| && After(Init(n), run).threads[i].Done?
    ensures var s := After(Init(n), run); var t := s.threads[i];
            && t.stored.Some? && t.stored.value <= t.at <= s.resets
            && (t.result == None <==> t.stored.value < t.at)
            && (t.result == None ==> t.since < t.at)
            && (t.result.Some? ==> t.result.value < |s.makers|)
  {
    RunKeepsInv(Init(n), run);
  }

  lemma {:induction false} RunOneMore(s: State, run: seq<Step>, step: Step)
    requires Legal(s, run) && Enabled(After(s, run), step)
    ensures Legal(s, run + [step]) && After(s, run + [step]) == Do(After(s, run), step)
    decreases |run|
  {
    if run == [] {
      assert run + [step] == [step] && [step][1..] == [];
    } else {
      assert (run + [step])[1..] == run[1..] + [step];
      RunOneMore(Do(s, run[0]), run[1..], step);
    }
  }

  const MADE := Init(2).(makers := [0])
  const STORED := MADE.(instance := Some(0), stored := Some(0))

  /** Thread 0 makes and stores an instance, and is about to read the field for its caller. */
  lemma MakesInstance() returns (run: seq<Step>)
    ensures Legal(Init(2), run) && After(Init(2), run) == Go(STORED, 0, GetReturns(0))
  {
    var s0 := Init(2);
    run := [];
    var steps := [BeginGet(0), Advance(0), Advance(0), Advance(0), Advance(0), Advance(0), Advance(0)];
    for k := 0 to 7
      invariant Legal(s0, run)
      invariant After(s0, run) == match k
                                  case 0 => s0
                                  case 1 => Go(s0, 0, GetStarts)
                                  case 2 => Go(s0, 0, GetWaits)
                                  case 3 => Go(s0.(lock := Some(0)), 0, GetInside)
                                  case 4 => Go(s0.(lock := Some(0)), 0, GetBuilds)
                                  case 5 => Go(MADE.(lock := Some(0)), 0, GetBuilt(0))
                                  case 6 => Go(STORED.(lock := Some(0)), 0, GetLeaves(0))
                                  case _ => Go(STORED, 0, GetReturns(0))
    {
      assert [] + [0 as nat] == [0];
      RunOneMore(s0, run, steps[k]);
      run := run + [steps[k]];
    }
  }

  /** The reset can make a caller come back with nothing, although the caller has just stored a
      new instance itself. */
  lemma ResetCanLeaveCallerWithNone() returns (run: seq<Step>)
    ensures Legal(Init(2), run)
    ensures var s := After(Init(2), run);
            s.makers == [0] && |s.threads| == 2 && s.threads[0] == Done(None, 0, 1, Some(0))
  {
    var s0 := Init(2);
    run := MakesInstance();
    RunOneMore(s0, run, BeginReset(1));
    run := run + [BeginReset(1)];
    RunOneMore(s0, run, Advance(1));
    run := run + [Advance(1)];
    RunOneMore(s0, run, Advance(1));
    run := run + [Advance(1)];
    RunOneMore(s0, run, Advance(0));
    run := run + [Advance(0)];
  }

  // ---------- The provider object, one caller at a time ----------

  class AgentService {
    constructor () {}
  }

  class AgentServiceProvider {
    var serviceInstance: AgentService?

    constructor ()
      ensures serviceInstance == null
    {
      serviceInstance := null;
    }

    method GetService() returns (service: AgentService)
      modifies this
      ensures service == serviceInstance
      ensures old(serviceInstance) != null ==> service == old(serviceInstance)
      ensures old(serviceInstance) == null ==> fresh(service)
    {
      if serviceInstance == null {
        serviceInstance := new AgentService();
      }
      service := serviceInstance;
    }

    method ResetService()
      modifies this
      ensures serviceInstance == null
    {
      serviceInstance := null;
    }

    method ServiceCreated() returns (created: bool)
      ensures created <==> serviceInstance != null
    {
      created := serviceInstance != null;
    }
  }

  /** Called by one thread only, a provider gives the same service until it is reset, and then a
      new one; whether there is a service can be asked at any time. */
  method UseProvider(provider: AgentServiceProvider)
    returns (first: AgentService, again: AgentService, later: AgentService)
    modifies provider
    ensures first == again && fresh(later) && later != first
  {
    first := provider.GetService();
    again := provider.GetService();
    provider.ResetService();
    var created := provider.ServiceCreated();
    assert !created;
    later := provider.GetService();
    created := provider.ServiceCreated();
    assert created;
  }
}
