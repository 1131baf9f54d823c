/** neuro_san/internals/journals/originating_journal.py

    A journal that can hold one message back until it is known whether the next one repeats it. */
module OriginatingJournal {
  import opened Wrappers

  datatype MessageClass = Human | Ai | System | AgentToolResult | NotForHistory

  datatype Message = Message(class_: MessageClass, content: string)

  /** One entry of the wrapped journal. */
  datatype Entry = Entry(message: Message, origin: int)

  /** `write_message`, with its optional origin, and `write_message_if_next_not_dupe`. */
  datatype Call = Write(m: Message, origin: Option<int>) | WriteIfNextNotDupe(m: Message)

  /** What the chat history keeps of a message: system messages and messages without relevance
      are left out, tool results become plain AI messages. */
  function ForHistory(m: Message): seq<Message> {
    match m.class_
    case NotForHistory => []
    case System => []
    case AgentToolResult => [Message(Ai, m.content)]
    case _ => [m]
  }

  class Journal {
    const origin: int
    var wrapped: seq<Entry>
    var chatHistory: Option<seq<Message>>
    var pending: Option<Message>

    constructor (origin: int, chatHistory: Option<seq<Message>>)
      ensures this.origin == origin && State() == JournalState([], chatHistory, None)
    {
      this.origin := origin;
      this.chatHistory := chatHistory;
      wrapped := [];
      pending := None;
    }

    ghost function State(): JournalState
      reads this
    {
      JournalState(wrapped, chatHistory, pending)
    }

    method WriteMessage(message: Message, origin: Option<int>)
      modifies this
      ensures State() == AfterWrite(old(State()), this.origin, message, origin)
      ensures var used := if origin.Some? then origin.value else this.origin;
              if old(pending).Some? && old(pending).value.content != message.content then
                wrapped == old(wrapped) + [Entry(old(pending).value, used), Entry(message, used)]
              else wrapped == old(wrapped) + [Entry(message, used)]
      ensures pending == None && (chatHistory.Some? <==> old(chatHistory).Some?)
      ensures chatHistory.Some? ==>
                match message.class_
                case Human => chatHistory.value == old(chatHistory).value + [message]
                case Ai => chatHistory.value == old(chatHistory).value + [message]
                case AgentToolResult => chatHistory.value == old(chatHistory).value + [Message(Ai, message.content)]
                case System => chatHistory == old(chatHistory)
                case NotForHistory => chatHistory == old(chatHistory)
    {
      assert wrapped + [] == wrapped && (chatHistory.Some? ==> chatHistory.value + [] == chatHistory.value);
      var useOrigin := this.origin;
      if origin.Some? {
        useOrigin := origin.value;
      }
      if chatHistory.Some? && message.class_ != NotForHistory {
        var forHistory := if message.class_ == AgentToolResult then Message(Ai, message.content) else message;
        if forHistory.class_ != System {
          chatHistory := Some(chatHistory.value + [forHistory]);
        }
      }
      if pending.Some? {
        if pending.value.content != message.content {
          wrapped := wrapped + [Entry(pending.value, useOrigin)];
        }
        pending := None;
      }
      wrapped := wrapped + [Entry(message, useOrigin)];
    }

    method WriteMessageIfNextNotDupe(message: Message)
      modifies this
      ensures State() == AfterDeferred(old(State()), origin, message)
      ensures pending == Some(message)
      ensures if old(pending).None? then wrapped == old(wrapped) && chatHistory == old(chatHistory)
              else wrapped == old(wrapped) + [Entry(old(pending).value, origin)]
    {
      if pending.Some? {
        // The held message meets itself: it is written once, by this very call.
        WriteMessage(pending.value, None);
      }
      pending := Some(message);
    }

    /** A whole sequence of calls. */
    method Perform(calls: seq<Call>)
      modifies this
      ensures State() == AfterAll(old(State()), origin, calls)
    {
      for i := 0 to |calls|
        invariant State() == AfterAll(old(State()), origin, calls[..i])
      {
        assert calls[..i + 1][..i] == calls[..i];
        match calls[i]
        case Write(m, o) => WriteMessage(m, o);
        case WriteIfNextNotDupe(m) => WriteMessageIfNextNotDupe(m);
      }
      assert calls[..|calls|] == calls;
    }
  }

  // ---------- The journal as a state machine ----------

  datatype JournalState = JournalState(wrapped: seq<Entry>, history: Option<seq<Message>>, pending: Option<Message>)

  function UsedOrigin(own: int, given: Option<int>): int {
    if given.Some? then given.value else own
  }

  function AfterWrite(s: JournalState, own: int, m: Message, given: Option<int>): JournalState {
    var o := UsedOrigin(own, given);
    var flushed := if s.pending.Some? && s.pending.value.content != m.content then [Entry(s.pending.value, o)] else [];
    JournalState(
      s.wrapped + flushed + [Entry(m, o)],
      if s.history.Some? then Some(s.history.value + ForHistory(m)) else None,
      None)
  }

  function AfterDeferred(s: JournalState, own: int, m: Message): JournalState {
    (if s.pending.Some? then AfterWrite(s, own, s.pending.value, None) else s).(pending := Some(m))
  }

  function AfterAll(s: JournalState, own: int, calls: seq<Call>): JournalState {
    if calls == [] then s
    else
      var before := AfterAll(s, own, calls[..|calls| - 1]);
      match calls[|calls| - 1]
      case Write(m, o) => AfterWrite(before, own, m, o)
      case WriteIfNextNotDupe(m) => AfterDeferred(before, own, m)
  }

  // ---------- What each call contributes, read off the list of calls ----------

  /** The journal entries that stem from the i-th call. An immediate message is always written. A
      deferred one is written with the origin of the next call, unless that call is immediate and
      repeats its content, or there is no next call. */
  function Contribution(calls: seq<Call>, own: int, i: nat): seq<Entry>
    requires i < |calls|
  {
    match calls[i]
    case Write(m, o) => [Entry(m, UsedOrigin(own, o))]
    case WriteIfNextNotDupe(m) =>
      if i + 1 == |calls| then []
      else match calls[i + 1]
           case Write(next, o) => if next.content == m.content then [] else [Entry(m, UsedOrigin(own, o))]
           case WriteIfNextNotDupe(_) => [Entry(m, own)]
  }

  /** The same for the chat history: a deferred message gets there only when the next call is
      deferred as well. */
  function HistoryContribution(calls: seq<Call>, i: nat): seq<Message>
    requires i < |calls|
  {
    match calls[i]
    case Write(m, _) => ForHistory(m)
    case WriteIfNextNotDupe(m) => if i + 1 < |calls| && calls[i + 1].WriteIfNextNotDupe? then ForHistory(m) else []
  }

  /** The contributions of the first `n` calls, in call order. */
  function Contributions(calls: seq<Call>, own: int, n: nat): seq<Entry>
    requires n <= |calls|
  {
    if n == 0 then [] else Contributions(calls, own, n - 1) + Contribution(calls, own, n - 1)
  }

  function HistoryContributions(calls: seq<Call>, n: nat): seq<Message>
    requires n <= |calls|
  {
    if n == 0 then [] else HistoryContributions(calls, n - 1) + HistoryContribution(calls, n - 1)
  }

  /** A further call settles the last one and leaves the earlier ones alone. */
  lemma {:induction false} EarlierAreSettled(calls: seq<Call>, own: int, next: Call, n: nat)
    requires n < |calls|
    ensures Contributions(calls + [next], own, n) == Contributions(calls, own, n)
    ensures HistoryContributions(calls + [next], n) == HistoryContributions(calls, n)
  {
    if n == 0 {
    } else {
      EarlierAreSettled(calls, own, next, n - 1);
    }
  }

  /** The message that is held back after these calls. */
  function Held(calls: seq<Call>): Option<Message> {
    if calls != [] && calls[|calls| - 1].WriteIfNextNotDupe? then Some(calls[|calls| - 1].m) else None
  }

  /** What one call appends to the journal and to the history, given the message held back. */
  function Appended(own: int, pending: Option<Message>, call: Call): seq<Entry> {
    match call
    case Write(m, o) =>
      (if pending.Some? && pending.value.content != m.content then [Entry(pending.value, UsedOrigin(own, o))] else [])
          + [Entry(m, UsedOrigin(own, o))]
    case WriteIfNextNotDupe(_) => if pending.Some? then [Entry(pending.value, own)] else []
  }

  function AppendedHistory(pending: Option<Message>, call: Call): seq<Message> {
    match call
    case Write(m, _) => ForHistory(m)
    case WriteIfNextNotDupe(_) => if pending.Some? then ForHistory(pending.value) else []
  }

  /** A history that is kept grows; a missing one, the default, stays missing. */
  function Grown(history: Option<seq<Message>>, more: seq<Message>): Option<seq<Message>> {
    if history.Some? then Some(history.value + more) else None
  }

  lemma GrownTwice(history: Option<seq<Message>>, a: seq<Message>, b: seq<Message>)
    ensures Grown(Grown(history, a), b) == Grown(history, a + b)
    ensures Grown(history, []) == history
  {
    if history.Some? {
      Assoc(history.value, a, b);
      assert history.value + [] == history.value;
    }
  }

  lemma CallAppends(s: JournalState, own: int, call: Call)
    ensures var after := if call.Write? then AfterWrite(s, own, call.m, call.origin) else AfterDeferred(s, own, call.m);
            && after.wrapped == s.wrapped + Appended(own, s.pending, call)
            && after.history == Grown(s.history, AppendedHistory(s.pending, call))
  {
    assert s.wrapped + [] == s.wrapped && (s.history.Some? ==> s.history.value + [] == s.history.value);
  }

  /** What a call appends is its own contribution and what it settles of the call before it. */
  lemma AppendedSettles(front: seq<Call>, own: int, last: Call)
    requires front != []
    ensures var calls, k := front + [last], |front| - 1;
            && Contribution(front, own, k) + Appended(own, Held(front), last) == Contribution(calls, own, k)
                + Contribution(calls, own, k + 1)
            && HistoryContribution(front, k) + AppendedHistory(Held(front), last) == HistoryContribution(calls, k)
                + HistoryContribution(calls, k + 1)
  {
  }

  lemma ContributionsSettle(front: seq<Call>, own: int, last: Call)
    requires front != []
    ensures Contributions(front, own, |front|) + Appended(own, Held(front), last)
        == Contributions(front + [last], own, |front| + 1)
    ensures HistoryContributions(front, |front|) + AppendedHistory(Held(front), last)
        == HistoryContributions(front + [last], |front| + 1)
  {
    var calls, k := front + [last], |front| - 1;
    EarlierAreSettled(front, own, last, k);
    AppendedSettles(front, own, last);
    Assoc(Contributions(front, own, k), Contribution(front, own, k), Appended(own, Held(front), last));
    Assoc(Contributions(front, own, k), Contribution(calls, own, k), Contribution(calls, own, k + 1));
    Assoc(HistoryContributions(front, k), HistoryContribution(front, k), AppendedHistory(Held(front), last));
    Assoc(HistoryContributions(front, k), HistoryContribution(calls, k), HistoryContribution(calls, k + 1));
  }

  /** For every sequence of calls the wrapped journal holds exactly the contributions of the calls
      in call order, the history - when the journal keeps one - those to the history, and what is
      held back is the message of a last deferred call. */
  lemma {:induction false} JournalHoldsContributions(calls: seq<Call>, own: int, history: Option<seq<Message>>)
    ensures var s := AfterAll(JournalState([], history, None), own, calls);
            && s.wrapped == Contributions(calls, own, |calls|)
            && s.history == Grown(history, HistoryContributions(calls, |calls|))
            && s.pending == Held(calls)
  {
    if calls == [] {
      GrownTwice(history, [], []);
    } else {
      var front, last := calls[..|calls| - 1], calls[|calls| - 1];
      var s := AfterAll(JournalState([], history, None), own, front);
      JournalHoldsContributions(front, own, history);
      assert calls == front + [last];
      CallAppends(s, own, last);
      GrownTwice(history, HistoryContributions(front, |front|), AppendedHistory(Held(front), last));
      if front != [] {
        ContributionsSettle(front, own, last);
      } else {
        assert HistoryContributions(calls, 1) == [] + AppendedHistory(None, last);
      }
    }
  }

  /** A deferred message that is followed by an immediate one with other content reaches the
      journal but not the chat history. */
  lemma DeferredMissesHistory(a: Message, b: Message, own: int)
    requires a.class_ == Ai && b.class_ == Ai && a.content != b.content
    ensures var s := AfterAll(JournalState([], Some([]), None), own, [WriteIfNextNotDupe(a), Write(b, None)]);
            s.wrapped == [Entry(a, own), Entry(b, own)] && s.history == Some([b])
  {
    var calls := [WriteIfNextNotDupe(a), Write(b, None)];
    JournalHoldsContributions(calls, own, Some([]));
    assert Contributions(calls, own, 1) == Contributions(calls, own, 0) + Contribution(calls, own, 0)
        == [Entry(a, own)];
    assert HistoryContributions(calls, 1) == HistoryContributions(calls, 0) + HistoryContribution(calls, 0) == [];
    assert HistoryContributions(calls, 2) == HistoryContributions(calls, 1) + HistoryContribution(calls, 1) == [b];
    assert [] + [b] == [b];
  }
}
