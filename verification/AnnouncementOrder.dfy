/** Listeners under threads: neuro_san/internals/network_providers/agent_network_storage.py changes
    its table under a lock and tells its listeners afterwards, outside the lock. Threads that change
    the table at the same time can so be overtaken on the way to a listener. */
module AnnouncementOrder {
  import opened Wrappers
  import opened NetworkStorage

  /** `log` are the changes of the table in the order of the lock; `waiting` are those that the
      listener has not been told, by whichever threads made them. */
  datatype State = State(table: set<string>, log: seq<Event>, waiting: multiset<Event>, announced: seq<Event>)

  datatype Step = AddAgent(name: string) | RemoveAgent(name: string) | Announce(event: Event)

  const START := State({}, [], multiset{}, [])

  predicate Enabled(s: State, step: Step) {
    step.Announce? ==> step.event in s.waiting
  }

  /** The event that a change will announce is fixed under the lock. */
  function EventOf(s: State, step: Step): Event
    requires !step.Announce?
  {
    if step.RemoveAgent? then Removed(step.name)
    else if step.name in s.table then Modified(step.name)
    else Added(step.name)
  }

  function Do(s: State, step: Step): State
    requires Enabled(s, step)
  {
    match step
    case Announce(e) => s.(waiting := s.waiting - multiset{e}, announced := s.announced + [e])
    case _ =>
      var e := EventOf(s, step);
      s.(table := Apply(s.table, e), log := s.log + [e], waiting := s.waiting + multiset{e})
  }

  ghost predicate Next(s: State, s': State) {
    exists step :: Enabled(s, step) && s' == Do(s, step)
  }

  ghost predicate IsRun(trace: seq<State>) {
    trace != [] && trace[0] == START && forall i :: 0 <= i < |trace| - 1 ==> Next(trace[i], trace[i + 1])
  }

  /** Everything has been announced. */
  predicate Quiet(s: State) {
    s.waiting == multiset{}
  }

  predicate InSync(s: State) {
    Replay({}, s.announced) == s.table
  }

  predicate Inv(s: State) {
    s.table == Replay({}, s.log) && multiset(s.log) == s.waiting + multiset(s.announced)
  }

  lemma StepKeepsInv(s: State, step: Step)
    requires Inv(s) && Enabled(s, step)
    ensures Inv(Do(s, step))
  {
    if step.Announce? {
      CountsMove(s.waiting, s.announced, step.event);
    } else {
      var e := EventOf(s, step);
      ReplayOneMore({}, s.log, e);
      CountsGrow(s.log, s.waiting, s.announced, e);
    }
  }

  lemma CountsGrow(log: seq<Event>, waiting: multiset<Event>, announced: seq<Event>, e: Event)
    requires multiset(log) == waiting + multiset(announced)
    ensures multiset(log + [e]) == (waiting + multiset{e}) + multiset(announced)
  {
  }

  lemma CountsMove(waiting: multiset<Event>, announced: seq<Event>, e: Event)
    requires e in waiting
    ensures waiting + multiset(announced) == (waiting - multiset{e}) + multiset(announced + [e])
  {
  }

  lemma {:induction false} RunKeepsInv(trace: seq<State>)
    requires IsRun(trace)
    ensures Inv(trace[|trace| - 1])
  {
    var k := |trace| - 1;
    if k == 0 {
      assert multiset(START.log) == multiset{};
    } else {
      RunKeepsInv(trace[..k]);
      assert Next(trace[k - 1], trace[k]);
      var step :| Enabled(trace[k - 1], step) && trace[k] == Do(trace[k - 1], step);
      StepKeepsInv(trace[k - 1], step);
    }
  }

  // ---------- What a list of events leaves of a name ----------

  lemma ReplayOneMore(known: set<string>, events: seq<Event>, e: Event)
    ensures Replay(known, events + [e]) == Apply(Replay(known, events), e)
  {
    assert (events + [e])[..|events|] == events;
  }

  /** The i-th change is announced as an addition of a name that was not in the table, or as a
      modification of one that was. */
  predicate Told(log: seq<Event>, i: nat)
    requires i < |log|
  {
    match log[i]
    case Added(name) => name !in Replay({}, log[..i])
    case Modified(name) => name in Replay({}, log[..i])
    case Removed(_) => true
  }

  /** In every run additions are told apart from modifications. */
  lemma {:induction false} AdditionsAreToldApart(trace: seq<State>)
    requires IsRun(trace)
    ensures var log := trace[|trace| - 1].log; forall i :: 0 <= i < |log| ==> Told(log, i)
  {
    var k := |trace| - 1;
    if k > 0 {
      AdditionsAreToldApart(trace[..k]);
      RunKeepsInv(trace[..k]);
      assert Next(trace[k - 1], trace[k]);
      var before, log := trace[k - 1].log, trace[k].log;
      forall i | 0 <= i < |log| ensures Told(log, i) {
        assert i < |before| ==> log[i] == before[i] && log[..i] == before[..i] && Told(before, i);
        assert i == |before| ==> log[..i] == before;
      }
    }
  }

  /** The last event about a name. */
  function LastFor(events: seq<Event>, name: string): Option<Event> {
    if events == [] then None
    else
      var e := events[|events| - 1];
      if e.name == name then Some(e) else LastFor(events[..|events| - 1], name)
  }

  lemma {:induction false} LastForIsLast(events: seq<Event>, name: string)
    ensures LastFor(events, name).Some? ==>
              var e := LastFor(events, name).value; e in events && e.name == name
    ensures LastFor(events, name).None? ==> forall e :: e in events ==> e.name != name
  {
    if events == [] {
    } else {
      var front := events[..|events| - 1];
      LastForIsLast(front, name);
      assert events == front + [events[|events| - 1]];
    }
  }

  /** The last event about a name decides whether a listener knows it. */
  lemma {:induction false} LastDecides(known: set<string>, events: seq<Event>, name: string)
    ensures name in Replay(known, events) <==>
            match LastFor(events, name)
            case None => name in known
            case Some(e) => !e.Removed?
  {
    if events == [] {
    } else {
      LastDecides(known, events[..|events| - 1], name);
    }
  }

  // ---------- Runs ----------

  /** The announcements and the changes end alike for a name: both with its removal, or neither. */
  predicate EndAlike(s: State, name: string) {
    match (LastFor(s.announced, name), LastFor(s.log, name))
    case (Some(a), Some(l)) => a.Removed? == l.Removed?
    case (None, None) => true
    case _ => false
  }

  lemma SameNames(a: seq<Event>, b: seq<Event>, name: string)
    requires multiset(a) == multiset(b)
    ensures LastFor(a, name).Some? <==> LastFor(b, name).Some?
  {
    LastForIsLast(a, name);
    LastForIsLast(b, name);
    assert forall e :: e in a <==> e in multiset(a);
    assert forall e :: e in b <==> e in multiset(b);
  }

  /** Over every run: when everything has been announced, a listener that was there from the start
      knows exactly the names in the table, if and only if for every name the last announcement
      agrees with the last change. */
  lemma QuietInSyncIff(trace: seq<State>)
    requires IsRun(trace) && Quiet(trace[|trace| - 1])
    ensures var s := trace[|trace| - 1]; InSync(s) <==> forall name :: EndAlike(s, name)
  {
    RunKeepsInv(trace);
    var s := trace[|trace| - 1];
    forall name ensures EndAlike(s, name) <==> (name in Replay({}, s.announced) <==> name in s.table) {
      SameNames(s.announced, s.log, name);
      LastDecides({}, s.announced, name);
      LastDecides({}, s.log, name);
    }
    if forall name :: EndAlike(s, name) {
      assert forall name :: EndAlike(s, name) ==> (name in Replay({}, s.announced) <==> name in s.table);
      assert Replay({}, s.announced) == s.table;
    }
  }

  // ---------- All orders of announcement ----------

  /** Whatever order the announcements come in, a listener ends with the same names. */
  ghost predicate AnyOrderInSync(known: set<string>, log: seq<Event>) {
    forall announced :: Arrives(known, log, announced)
  }

  predicate Arrives(known: set<string>, log: seq<Event>, announced: seq<Event>) {
    multiset(announced) == multiset(log) ==> Replay(known, announced) == Replay(known, log)
  }

  /** Some name is both put into the table and removed from it. */
  predicate ComesAndGoes(log: seq<Event>) {
    exists e, d :: e in log && d in log && e.name == d.name && e.Removed? && !d.Removed?
  }

  lemma SameEnd(known: set<string>, log: seq<Event>, announced: seq<Event>, name: string)
    requires !ComesAndGoes(log) && multiset(announced) == multiset(log)
    ensures name in Replay(known, announced) <==> name in Replay(known, log)
  {
    SameNames(announced, log, name);
    LastForIsLast(announced, name);
    LastForIsLast(log, name);
    LastDecides(known, announced, name);
    LastDecides(known, log, name);
    if LastFor(log, name).Some? {
      var a, l := LastFor(announced, name).value, LastFor(log, name).value;
      assert a in multiset(announced) && a in multiset(log) && a in log && l in log;
    }
  }

  /** An event can be announced last. */
  lemma AnnouncedLast(log: seq<Event>, x: Event) returns (announced: seq<Event>)
    requires x in log
    ensures multiset(announced) == multiset(log) && LastFor(announced, x.name) == Some(x)
  {
    var i :| 0 <= i < |log| && log[i] == x;
    var rest := log[..i] + log[i + 1..];
    announced := rest + [x];
    assert log == log[..i] + [x] + log[i + 1..];
  }

  /** For a given list of changes, in the order of the lock: the order of the announcements does not
      matter exactly when no name is both put and removed. */
  lemma AnyOrderInSyncIff(known: set<string>, log: seq<Event>)
    ensures AnyOrderInSync(known, log) <==> !ComesAndGoes(log)
  {
    if ComesAndGoes(log) {
      var e, d :| e in log && d in log && e.name == d.name && e.Removed? && !d.Removed?;
      var name := e.name;
      LastForIsLast(log, name);
      var x := if LastFor(log, name).value.Removed? then d else e;
      var announced := AnnouncedLast(log, x);
      LastDecides(known, announced, name);
      LastDecides(known, log, name);
      assert !Arrives(known, log, announced);
    } else {
      forall announced ensures Arrives(known, log, announced) {
        if multiset(announced) == multiset(log) {
          forall name ensures name in Replay(known, announced) <==> name in Replay(known, log) {
            SameEnd(known, log, announced, name);
          }
        }
      }
    }
  }

  /** A run that has got to a state goes on with one step. */
  lemma Goes(trace: seq<State>, step: Step, s: State) returns (longer: seq<State>)
    requires IsRun(trace) && Enabled(trace[|trace| - 1], step)
    requires var d := Do(trace[|trace| - 1], step);
             d.table == s.table && d.log == s.log && d.waiting == s.waiting && d.announced == s.announced
    ensures IsRun(longer) && longer[|longer| - 1] == s
  {
    longer := trace + [s];
    assert Do(trace[|trace| - 1], step) == s;
    forall i | 0 <= i < |longer| - 1 ensures Next(longer[i], longer[i + 1]) {
      if i < |trace| - 1 { assert Next(trace[i], trace[i + 1]); }
    }
  }

  lemma BothWait(put: Event, gone: Event)
    requires put != gone
    ensures multiset{} + multiset{put} == multiset{put} && multiset{put} + multiset{gone} == multiset{put, gone}
    ensures multiset{put, gone} - multiset{gone} == multiset{put} && multiset{put} - multiset{put} == multiset{}
  {
  }

  /** A run in which a removal overtakes the addition before it: the listener is left with a name
      that is not in the table. */
  lemma RemovalOvertakes(name: string) returns (trace: seq<State>)
    ensures IsRun(trace) && Quiet(trace[|trace| - 1])
    ensures trace[|trace| - 1].table == {} && Replay({}, trace[|trace| - 1].announced) == {name}
  {
    var put, gone := Added(name), Removed(name);
    BothWait(put, gone);
    trace := Goes([START], AddAgent(name), State({name}, [put], multiset{put}, []));
    trace := Goes(trace, RemoveAgent(name), State({}, [put, gone], multiset{put, gone}, []));
    trace := Goes(trace, Announce(gone), State({}, [put, gone], multiset{put}, [gone]));
    trace := Goes(trace, Announce(put), State({}, [put, gone], multiset{}, [gone, put]));
    OvertakenReplay(name);
  }

  lemma OvertakenReplay(name: string)
    ensures Replay({}, [Removed(name), Added(name)]) == {name}
  {
    assert [Removed(name)] + [Added(name)] == [Removed(name), Added(name)];
    ReplayOneMore({}, [Removed(name)], Added(name));
    assert [] + [Removed(name)] == [Removed(name)];
    ReplayOneMore({}, [], Removed(name));
  }
}
