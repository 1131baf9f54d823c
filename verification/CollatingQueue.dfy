/** neuro_san/internals/chat/async_collating_queue.py, with the finalization of a run in
    neuro_san/internals/chat/data_driven_chat_session.py and what a journal puts on the queue.

    Any number of producers put messages; one consumer takes them until it meets the end marker. */
module CollatingQueue {
  import opened Wrappers

  /** Something on the queue. A dictionary value may be Python's None. */
  datatype Item = Dictionary(fields: map<string, Option<int>>) | Other(value: int)

  const END_KEY := "end"
  const END_MESSAGE := Dictionary(map[END_KEY := Some(1)])

  /** Whether the consumer takes an item for the end of the data. */
  predicate IsFinalItem(item: Item) {
    item.Dictionary? && END_KEY in item.fields && item.fields[END_KEY].Some?
  }

  // ---------- The queue ----------

  datatype Queue = Queue(items: seq<Item>, lastItemSent: bool)

  function AfterPut(q: Queue, item: Item, checkLastItemSent: bool): Queue {
    if checkLastItemSent && q.lastItemSent then q else q.(items := q.items + [item])
  }

  function AfterPutFinal(q: Queue): Queue {
    if q.lastItemSent then q else Queue(q.items + [END_MESSAGE], true)
  }

  class AsyncCollatingQueue {
    var queue: seq<Item>
    var lastItemSent: bool

    constructor ()
      ensures Now() == Queue([], false)
    {
      queue := [];
      lastItemSent := false;
    }

    ghost function Now(): Queue
      reads this
    {
      Queue(queue, lastItemSent)
    }

    /** `__anext__`, once an item has arrived; None stands for StopAsyncIteration. */
    method Next() returns (r: Option<Item>)
      requires queue != []
      modifies this`queue
      ensures queue == old(queue)[1..]
      ensures var item := old(queue)[0];
              r == if item.Dictionary? && "end" in item.fields && item.fields["end"].Some? then None else Some(item)
    {
      var message := queue[0];
      queue := queue[1..];
      r := if IsFinalItem(message) then None else Some(message);
    }

    method Put(item: Item, checkLastItemSent: bool)
      modifies this`queue
      ensures Now() == AfterPut(old(Now()), item, checkLastItemSent)
      ensures queue == if checkLastItemSent && lastItemSent then old(queue) else old(queue) + [item]
    {
      if checkLastItemSent && lastItemSent {
        return;
      }
      queue := queue + [item];
    }

    method PutFinalItem()
      modifies this
      ensures Now() == AfterPutFinal(old(Now()))
      ensures queue == if old(lastItemSent) then old(queue) else old(queue) + [Dictionary(map["end" := Some(1)])]
      ensures lastItemSent
    {
      if lastItemSent {
        return;
      }
      lastItemSent := true;
      Put(END_MESSAGE, false);
    }

    method Reset()
      modifies this`lastItemSent
      ensures !lastItemSent
    {
      lastItemSent := false;
    }
  }

  // ---------- What journals put on the queue ----------

  datatype Content = NoContent | Text(text: int) | Blocks(texts: seq<Option<int>>)

  /** A message with the attributes the converter looks for; None when it has no such value. */
  datatype BaseMessage = BaseMessage(
    kind: int,
    content: Content,
    chatContext: Option<int>,
    toolResultOrigin: Option<int>,
    structure: Option<int>,
    slyData: Option<int>)

  const EMPTY_TEXT := 0

  /** Anthropic's content blocks: the text of the first block, or "" when it has none. */
  function ContentText(c: Content): Option<int> {
    match c
    case NoContent => None
    case Text(t) => Some(t)
    case Blocks(texts) => if texts == [] then None else if texts[0].Some? then texts[0] else Some(EMPTY_TEXT)
  }

  function Optional(fields: map<string, Option<int>>, key: string, value: Option<int>): map<string, Option<int>> {
    if value.Some? then fields[key := value] else fields
  }

  /** BaseMessageDictionaryConverter.to_dict */
  function ToDict(m: BaseMessage, origin: Option<int>): Item {
    var f0 := map["type" := Some(m.kind)];
    var f1 := Optional(f0, "origin", origin);
    var f2 := Optional(f1, "text", ContentText(m.content));
    var f3 := Optional(f2, "chat_context", m.chatContext);
    var f4 := Optional(f3, "tool_result_origin", m.toolResultOrigin);
    var f5 := Optional(f4, "structure", m.structure);
    Dictionary(Optional(f5, "sly_data", m.slyData))
  }

  /** No journaled message can be mistaken for the end marker. */
  lemma JournaledIsNeverFinal(m: BaseMessage, origin: Option<int>)
    ensures !IsFinalItem(ToDict(m, origin))
    ensures ToDict(m, origin).fields.Keys <= {"type", "origin", "text", "chat_context", "tool_result_origin",
        "structure", "sly_data"}
  {
    assert "end" !in {"type", "origin", "text", "chat_context", "tool_result_origin", "structure", "sly_data"} by {
      assert |"end"| == 3;
      assert |"type"| == 4 && |"origin"| == 6 && |"text"| == 4 && |"chat_context"| == 12 && |"tool_result_origin"| == 18
          && |"structure"| == 9 && |"sly_data"| == 8;
    }
  }

  predicate KeptUnder(fields: map<string, Option<int>>, key: string, value: Option<int>) {
    if value.Some? then key in fields && fields[key] == value else key !in fields
  }

  /** Every attribute that has a value is kept under its own key. */
  lemma JournaledFields(m: BaseMessage, origin: Option<int>)
    ensures var fields := ToDict(m, origin).fields;
            && KeptUnder(fields, "type", Some(m.kind)) && KeptUnder(fields, "origin", origin)
            && KeptUnder(fields, "chat_context", m.chatContext)
            && KeptUnder(fields, "tool_result_origin", m.toolResultOrigin)
            && KeptUnder(fields, "structure", m.structure) && KeptUnder(fields, "sly_data", m.slyData)
  {
  }

  /** The text is kept under "text": of content blocks that of the first one, "" when it has none. */
  lemma JournaledText(m: BaseMessage, origin: Option<int>)
    ensures var fields := ToDict(m, origin).fields;
            match m.content
            case NoContent => "text" !in fields
            case Text(t) => KeptUnder(fields, "text", Some(t))
            case Blocks(texts) =>
              if texts == [] then "text" !in fields
              else KeptUnder(fields, "text", if texts[0].Some? then texts[0] else Some(EMPTY_TEXT))
  {
  }

  // ---------- The session ----------

  class ChatSession {
    var lastMessageSent: bool
    const queue: AsyncCollatingQueue

    constructor (queue: AsyncCollatingQueue)
      ensures !lastMessageSent && this.queue == queue
    {
      lastMessageSent := false;
      this.queue := queue;
    }

    /** Publish the final message and the end marker, once. */
    method FinalizeRun(message: BaseMessage, origin: Option<int>)
      modifies this`lastMessageSent, queue
      ensures lastMessageSent
      ensures queue.Now() == if old(lastMessageSent) then old(queue.Now())
                             else AfterPutFinal(AfterPut(old(queue.Now()), ToDict(message, origin), true))
      ensures old(lastMessageSent) || old(queue.lastItemSent) ==> queue.queue == old(queue.queue)
      ensures !old(lastMessageSent) && !old(queue.lastItemSent) ==>
                && queue.queue == old(queue.queue) + [ToDict(message, origin), Dictionary(map["end" := Some(1)])]
                && queue.lastItemSent
    {
      if lastMessageSent {
        return;
      }
      lastMessageSent := true;
      queue.Put(ToDict(message, origin), true);
      queue.PutFinalItem();
    }
  }

  // ---------- Whole runs, producers and consumer interleaved ----------

  /** How far the one effective finalize_run has come: its two puts are separate steps. */
  datatype Phase = NotFinalized | Writing(final: Item) | Ending | Finished

  /** `accepted` records the messages that were put on the queue, `taken` all items that came off
      it, and `finalAt` where the final message stands among the accepted ones. */
  datatype System = System(
    q: Queue, phase: Phase, received: seq<Item>, stops: nat, taken: seq<Item>,
    accepted: seq<Item>, final: Option<Item>, finalAt: nat)

  datatype Step = PutMessage(item: Item) | CallFinalize(message: Item) | WriteFinal | PutEnd | Take

  predicate Enabled(s: System, step: Step) {
    match step
    case WriteFinal => s.phase.Writing?
    case PutEnd => s.phase == Ending
    case Take => s.stops == 0 && s.q.items != []
    case _ => true
  }

  function Do(s: System, step: Step): System
    requires Enabled(s, step)
  {
    match step
    case PutMessage(item) =>
      if s.q.lastItemSent then s else s.(q := AfterPut(s.q, item, true), accepted := s.accepted + [item])
    case CallFinalize(message) => if s.phase == NotFinalized then s.(phase := Writing(message)) else s
    case WriteFinal =>
      var item := s.phase.final;
      if s.q.lastItemSent then s.(phase := Ending)
      else s.(q := AfterPut(s.q, item, true), phase := Ending, accepted := s.accepted + [item], final := Some(item),
          finalAt := |s.accepted|)
    case PutEnd => s.(q := AfterPutFinal(s.q), phase := Finished)
    case Take =>
      var message := s.q.items[0];
      var rest := s.(q := s.q.(items := s.q.items[1..]), taken := s.taken + [message]);
      if IsFinalItem(message) then rest.(stops := s.stops + 1) else rest.(received := s.received + [message])
  }

  const START := System(Queue([], false), NotFinalized, [], 0, [], [], None, 0)

  predicate Legal(s: System, run: seq<Step>)
    decreases |run|
  {
    run == [] || (Enabled(s, run[0]) && Legal(Do(s, run[0]), run[1..]))
  }

  function After(s: System, run: seq<Step>): System
    requires Legal(s, run)
    decreases |run|
  {
    if run == [] then s else After(Do(s, run[0]), run[1..])
  }

  /** Everything that was ever put on the queue. */
  function Stream(s: System): seq<Item> {
    s.accepted + (if s.q.lastItemSent then [END_MESSAGE] else [])
  }

  predicate NoneFinal(items: seq<Item>) {
    forall x :: x in items ==> !IsFinalItem(x)
  }

  ghost predicate Inv(s: System) {
    && Stream(s) == s.taken + s.q.items
    && NoneFinal(s.received)
    && (s.stops == 0 ==> s.taken == s.received)
    && (s.stops > 0 ==>
        s.stops == 1 && |s.taken| == |s.received| + 1 && s.received <= s.taken && IsFinalItem(s.taken[|s.received|]))
    && (s.q.lastItemSent <==> s.phase == Finished)
    && (s.phase == Ending || s.phase == Finished ==>
          s.final.Some? && s.finalAt < |s.accepted| && s.accepted[s.finalAt] == s.final.value)
  }

  /** Only the marker can come after the accepted messages. */
  lemma ReceivedIsPrefix(s: System)
    requires Inv(s)
    ensures s.received <= s.accepted
    ensures s.stops == 1 && NoneFinal(s.accepted) ==> s.received == s.accepted && s.q.items == [] && s.q.lastItemSent
  {
    var stream := Stream(s);
    assert s.received <= s.taken <= stream;
    assert forall k :: 0 <= k < |s.received| ==> s.received[k] in s.received && s.received[k] == stream[k];
    assert forall k :: 0 <= k < |s.accepted| ==> s.accepted[k] in s.accepted && s.accepted[k] == stream[k];
    assert s.q.lastItemSent ==> IsFinalItem(stream[|s.accepted|]);
    assert |s.received| <= |s.accepted|;
    assert s.stops == 1 ==> s.taken[|s.received|] == stream[|s.received|];
  }

  lemma TakeKeepsInv(s: System)
    requires Inv(s) && Enabled(s, Take)
    ensures Inv(Do(s, Take))
  {
    var s' := Do(s, Take);
    assert Stream(s') == s'.taken + s'.q.items;
  }

  lemma StepKeepsInv(s: System, step: Step)
    requires Inv(s) && Enabled(s, step)
    ensures Inv(Do(s, step))
    ensures s.phase == Finished ==> Do(s, step).accepted == s.accepted && Do(s, step).phase == Finished
  {
    if step.Take? {
      TakeKeepsInv(s);
    } else {
      var s' := Do(s, step);
      assert s.accepted + [] == s.accepted && s'.accepted + [] == s'.accepted;
      if s'.q != s.q {
        var item := s'.q.items[|s.q.items|];
        assert s'.q.items == s.q.items + [item] && Stream(s') == Stream(s) + [item];
      }
      assert Stream(s') == s'.taken + s'.q.items;
    }
  }

  lemma {:induction false} RunKeepsInv(s: System, run: seq<Step>)
    requires Inv(s) && Legal(s, run)
    ensures Inv(After(s, run))
    ensures s.phase == Finished ==> After(s, run).accepted == s.accepted && After(s, run).phase == Finished
    decreases |run|
  {
    if run == [] {
    } else {
      StepKeepsInv(s, run[0]);
      RunKeepsInv(Do(s, run[0]), run[1..]);
    }
  }

  /** In every run the consumer has received a prefix of the accepted messages, in order; it is
      told to stop at most once, and nothing is accepted any more once the marker is there. */
  lemma ConsumerSeesPrefix(run: seq<Step>, more: seq<Step>)
    requires Legal(START, run) && Legal(After(START, run), more)
    ensures var s := After(START, run); s.received <= s.accepted && s.stops <= 1
    ensures var s := After(START, run); s.phase == Finished ==> After(s, more).accepted == s.accepted
  {
    RunKeepsInv(START, run);
    ReceivedIsPrefix(After(START, run));
    RunKeepsInv(After(START, run), more);
  }

  /** A consumer that has stopped has received everything accepted exactly when no accepted
      message looks like the end marker. */
  lemma StoppedConsumerHasAllIff(run: seq<Step>)
    requires Legal(START, run) && After(START, run).stops == 1
    ensures var s := After(START, run);
            (s.received == s.accepted && s.q.items == [] && s.phase == Finished) <==> NoneFinal(s.accepted)
  {
    RunKeepsInv(START, run);
    ReceivedIsPrefix(After(START, run));
  }

  /** No message is put between the final message and the marker: the two puts of finalize_run,
      as far as the other producers are concerned, are one. */
  predicate NoneBetween(s: System, run: seq<Step>)
    requires Legal(s, run)
    decreases |run|
  {
    run == [] || (!(run[0].PutMessage? && s.phase == Ending) && NoneBetween(Do(s, run[0]), run[1..]))
  }

  /** The final message has been written, and nothing after it yet. */
  predicate FinalIsLast(s: System) {
    s.finalAt == |s.accepted| - 1
  }

  /** The final message stays the last one exactly as long as nobody else puts before the marker. */
  lemma {:induction false} FinalStaysLastIff(s: System, run: seq<Step>)
    requires Inv(s) && Legal(s, run) && (After(s, run).phase == Ending || After(s, run).phase == Finished)
    ensures FinalIsLast(After(s, run)) <==>
            NoneBetween(s, run) && (s.phase == Ending || s.phase == Finished ==> FinalIsLast(s))
    decreases |run|
  {
    if run == [] {
    } else {
      StepKeepsInv(s, run[0]);
      FinalStaysLastIff(Do(s, run[0]), run[1..]);
    }
  }

  /** Where the final message stands in what a stopped consumer received: it is there, and it is
      the very last one exactly when no other message was put between it and the marker. */
  lemma FinalMessageIsLastIff(run: seq<Step>)
    requires Legal(START, run) && After(START, run).stops == 1 && NoneFinal(After(START, run).accepted)
    ensures var s := After(START, run);
            && s.final.Some? && s.finalAt < |s.received| && s.received[s.finalAt] == s.final.value
            && (s.finalAt == |s.received| - 1 <==> NoneBetween(START, run))
  {
    RunKeepsInv(START, run);
    StoppedConsumerHasAllIff(run);
    FinalStaysLastIff(START, run);
  }

  // ---------- Runs in which journals do the putting ----------

  ghost predicate FromJournal(item: Item) {
    exists m, origin :: item == ToDict(m, origin)
  }

  /** The messages of a session reach the queue through a journal, the final one included. */
  ghost predicate Journaled(step: Step) {
    match step
    case PutMessage(item) => FromJournal(item)
    case CallFinalize(message) => FromJournal(message)
    case _ => true
  }

  /** Nothing on its way to the consumer looks like the end marker. */
  predicate Harmless(s: System) {
    NoneFinal(s.accepted) && (s.phase.Writing? ==> !IsFinalItem(s.phase.final))
  }

  lemma StepStaysHarmless(s: System, step: Step)
    requires Enabled(s, step) && Harmless(s) && Journaled(step)
    ensures Harmless(Do(s, step))
  {
    if step.PutMessage? {
      var m, origin :| step.item == ToDict(m, origin);
      JournaledIsNeverFinal(m, origin);
    } else if step.CallFinalize? {
      var m, origin :| step.message == ToDict(m, origin);
      JournaledIsNeverFinal(m, origin);
    }
  }

  lemma {:induction false} RunStaysHarmless(s: System, run: seq<Step>)
    requires Legal(s, run) && Harmless(s) && forall step :: step in run ==> Journaled(step)
    ensures Harmless(After(s, run))
    decreases |run|
  {
    if run == [] {
    } else {
      assert run[0] in run && forall step :: step in run[1..] ==> step in run;
      StepStaysHarmless(s, run[0]);
      RunStaysHarmless(Do(s, run[0]), run[1..]);
    }
  }

  /** In every run over journaled messages a consumer that has stopped has received exactly what
      was accepted, in order. The final message of the run is there, and it is the very last one
      exactly when no other message was put between it and the marker. */
  lemma JournaledRunDeliversAll(run: seq<Step>)
    requires Legal(START, run) && (forall step :: step in run ==> Journaled(step)) && After(START, run).stops == 1
    ensures var s := After(START, run);
            && s.received == s.accepted && s.q.items == [] && s.phase == Finished
            && s.final.Some? && s.finalAt < |s.received| && s.received[s.finalAt] == s.final.value
            && (s.finalAt == |s.received| - 1 <==> NoneBetween(START, run))
  {
    RunStaysHarmless(START, run);
    StoppedConsumerHasAllIff(run);
    FinalMessageIsLastIff(run);
  }

  /** Once the marker is on the queue, taking what is there ends the consumption. */
  lemma {:induction false} DrainingStops(s: System) returns (takes: seq<Step>)
    requires Inv(s) && s.phase == Finished && s.stops == 0
    ensures (forall t :: t in takes ==> t == Take) && Legal(s, takes) && After(s, takes).stops == 1
    decreases |s.q.items|
  {
    ReceivedIsPrefix(s);
    assert |Stream(s)| == |s.accepted| + 1;
    StepKeepsInv(s, Take);
    var next := Do(s, Take);
    if next.stops == 1 {
      takes := [Take];
      assert takes[1..] == [];
    } else {
      var rest := DrainingStops(next);
      takes := [Take] + rest;
      assert takes[1..] == rest;
    }
  }

  lemma TakeOne(s: System, item: Item, rest: seq<Item>, run: seq<Step>)
    requires s.stops == 0 && s.q.items == [item] + rest
    ensures Legal(s, [Take]) && Do(s, Take).q.items == rest
    ensures Do(s, Take).received == if IsFinalItem(item) then s.received else s.received + [item]
    ensures Do(s, Take).stops == if IsFinalItem(item) then 1 else 0
    ensures Legal(Do(s, Take), run) ==> Legal(s, [Take] + run) && After(s, [Take] + run) == After(Do(s, Take), run)
  {
    assert ([Take] + run)[1..] == run && [Take][1..] == [];
  }

  /** Two messages and the marker are taken. */
  lemma TakeThree(s: System, a: Item, b: Item)
    requires s.stops == 0 && s.q.items == [a, b, END_MESSAGE] && !IsFinalItem(a) && !IsFinalItem(b)
    ensures Legal(s, [Take, Take, Take])
    ensures After(s, [Take, Take, Take]).stops == 1 && After(s, [Take, Take, Take]).received == s.received + [a, b]
  {
    var s1 := Do(s, Take);
    assert [a, b, END_MESSAGE] == [a] + [b, END_MESSAGE] && [b, END_MESSAGE] == [b] + [END_MESSAGE] &&
        [END_MESSAGE] == [END_MESSAGE] + [];
    TakeOne(s, a, [b, END_MESSAGE], [Take, Take]);
    var s2 := Do(s1, Take);
    TakeOne(s1, b, [END_MESSAGE], [Take]);
    TakeOne(s2, END_MESSAGE, [], []);
    assert [Take] + [] == [Take] && [Take] + [Take] == [Take, Take] && [Take] + [Take, Take] == [Take, Take, Take];
    assert (s.received + [a]) + [b] == s.received + [a, b];
  }

  lemma StepThen(s: System, step: Step, rest: seq<Step>)
    requires Enabled(s, step) && Legal(Do(s, step), rest)
    ensures Legal(s, [step] + rest) && After(s, [step] + rest) == After(Do(s, step), rest)
  {
    assert ([step] + rest)[1..] == rest;
  }

  /** A message accepted between the two puts of finalize_run comes after the final message. */
  lemma LateMessageFollowsFinal(final: Item, other: Item)
    requires !IsFinalItem(final) && !IsFinalItem(other)
    ensures var run := [CallFinalize(final), WriteFinal, PutMessage(other), PutEnd, Take, Take, Take];
            Legal(START, run) && After(START, run).stops == 1 && After(START, run).received == [final, other]
  {
    var s1 := Do(START, CallFinalize(final));
    var s2 := Do(s1, WriteFinal);
    var s3 := Do(s2, PutMessage(other));
    var s4 := Do(s3, PutEnd);
    assert s4.q.items == [final, other, END_MESSAGE];
    TakeThree(s4, final, other);
    var run4 := [Take, Take, Take];
    StepThen(s3, PutEnd, run4);
    var run3 := [PutEnd] + run4;
    StepThen(s2, PutMessage(other), run3);
    var run2 := [PutMessage(other)] + run3;
    StepThen(s1, WriteFinal, run2);
    var run1 := [WriteFinal] + run2;
    StepThen(START, CallFinalize(final), run1);
    assert [CallFinalize(final)] + run1
        == [CallFinalize(final), WriteFinal, PutMessage(other), PutEnd, Take, Take, Take];
  }
}
