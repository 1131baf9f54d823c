/** neuro_san/internals/chat/chat_history_message_processor.py

    The chat history that is sent back to a client: messages of three types, the first system
    message redacted, the others with their braces escaped, cut to a maximum length. */
module ChatHistory {
  import opened Wrappers
  import BraceEscaping

  datatype MessageType = HUMAN | SYSTEM | AI | OTHER

  /** A ChatMessage dictionary: its type, its text, and everything else. */
  datatype Message = Message(kind: MessageType, text: Option<string>, rest: int)

  const REDACTED := "<redacted>"

  function RedactInstructions(m: Message): Message {
    m.(text := Some(REDACTED))
  }

  /** A text with its braces escaped; the processor below is given BraceEscaping.EscapeText. */
  type Escape = string -> string

  function EscapeMessage(m: Message, escape: Escape): Option<Message> {
    if m.text.None? then None else Some(m.(text := Some(escape(m.text.value))))
  }

  predicate Ingestable(m: Message) {
    m.kind != OTHER
  }

  // ---------- The reference: one pass over all messages ----------

  /** What becomes of one message, given whether a system message was seen before. */
  function Kept(m: Message, sawSystem: bool, escape: Escape): seq<Message> {
    if !Ingestable(m) then []
    else if !sawSystem && m.kind == SYSTEM then [RedactInstructions(m)]
    else match EscapeMessage(m, escape)
         case None => []
         case Some(escaped) => [escaped]
  }

  predicate SawSystem(messages: seq<Message>) {
    exists m :: m in messages && m.kind == SYSTEM
  }

  function KeptOf(messages: seq<Message>, escape: Escape): seq<Message> {
    if messages == [] then []
    else
      var front := messages[..|messages| - 1];
      KeptOf(front, escape) + Kept(messages[|messages| - 1], SawSystem(front), escape)
  }

  /** The first kept message and, after it, the `max` most recent ones. A maximum of one or less
      is no maximum. */
  function Trimmed(kept: seq<Message>, max: Option<int>): seq<Message> {
    if max.None? || max.value <= 1 || |kept| <= max.value + 1 then kept
    else [kept[0]] + kept[|kept| - max.value..]
  }

  /** What trimming keeps: the first message and the most recent ones, at most `max` of them. */
  lemma TrimmedKeepsFirstAndRecent(kept: seq<Message>, max: Option<int>)
    requires kept != [] && max.Some? && max.value >= 2
    ensures var r := Trimmed(kept, max);
            && r[0] == kept[0] && |r| == 1 + (if |kept| - 1 < max.value then |kept| - 1 else max.value)
            && r[1..] == kept[|kept| - (|r| - 1)..]
  {
  }

  /** Trimming what is already trimmed, and then adding to it, is trimming the whole. */
  lemma TrimmedMore(kept: seq<Message>, more: seq<Message>, max: Option<int>)
    requires kept != []
    ensures Trimmed(Trimmed(kept, max) + more, max) == Trimmed(kept + more, max)
  {
    if max.Some? && max.value > 1 && |kept| > max.value + 1 {
      var short := Trimmed(kept, max);
      assert |short| == max.value + 1;
      if more == [] {
        assert short + more == short && kept + more == kept;
      } else {
        var a, b := short + more, kept + more;
        assert a[|a| - max.value..] == b[|b| - max.value..];
      }
    }
  }

  /** Only the first system message is redacted; every other kept message shows its own text,
      escaped. */
  lemma {:induction false} OnlyFirstSystemRedacted(messages: seq<Message>, escape: Escape, i: nat)
    requires i < |messages|
    ensures KeptOf(messages, escape) == KeptOf(messages[..i], escape)
        + Kept(messages[i], SawSystem(messages[..i]), escape) + KeptAfter(messages, escape, i + 1)
    ensures messages[i].kind == SYSTEM && !SawSystem(messages[..i]) ==>
        Kept(messages[i], SawSystem(messages[..i]), escape) == [messages[i].(text := Some("<redacted>"))]
    ensures !(messages[i].kind == SYSTEM && !SawSystem(messages[..i])) ==>
              Kept(messages[i], SawSystem(messages[..i]), escape) ==
              if messages[i].kind in {HUMAN, SYSTEM, AI} && messages[i].text.Some?
                  then [messages[i].(text := Some(escape(messages[i].text.value)))]
                  else []
  {
    KeptOneMore(messages, escape, i);
    KeptFromHere(messages, escape, i + 1);
  }

  lemma KeptOneMore(messages: seq<Message>, escape: Escape, i: nat)
    requires i < |messages|
    ensures KeptOf(messages[..i + 1], escape) == KeptOf(messages[..i], escape)
        + Kept(messages[i], SawSystem(messages[..i]), escape)
    ensures SawSystem(messages[..i + 1]) <==> SawSystem(messages[..i]) || messages[i].kind == SYSTEM
  {
    assert messages[..i + 1][..i] == messages[..i];
    assert messages[..i + 1] == messages[..i] + [messages[i]];
  }

  function KeptAfter(messages: seq<Message>, escape: Escape, i: nat): seq<Message>
    requires i <= |messages|
    decreases |messages| - i
  {
    if i == |messages| then []
        else Kept(messages[i], SawSystem(messages[..i]), escape) + KeptAfter(messages, escape, i + 1)
  }

  lemma {:induction false} KeptFromHere(messages: seq<Message>, escape: Escape, i: nat)
    requires i <= |messages|
    ensures KeptOf(messages, escape) == KeptOf(messages[..i], escape) + KeptAfter(messages, escape, i)
    decreases |messages| - i
  {
    if i == |messages| {
      assert messages[..i] == messages;
    } else {
      KeptFromHere(messages, escape, i + 1);
      KeptOneMore(messages, escape, i);
    }
  }

  /** Processing one more message `m`, seen from the messages so far and those with `m`. */
  lemma KeptStep(front: seq<Message>, m: Message, longer: seq<Message>, escape: Escape, kept: seq<Message>,
      more: seq<Message>)
    requires longer == front + [m] && KeptOf(front, escape) == kept + more
    ensures KeptOf(longer, escape) == kept + (more + Kept(m, SawSystem(front), escape))
    ensures SawSystem(longer) <==> SawSystem(front) || m.kind == SYSTEM
  {
    assert longer[..|longer| - 1] == front;
    Assoc(kept, more, Kept(m, SawSystem(front), escape));
  }

  lemma OneMore(start: seq<Message>, batch: seq<Message>, i: nat)
    requires i < |batch|
    ensures start + batch[..i + 1] == (start + batch[..i]) + [batch[i]]
  {
  }

  /** Taking the first message off, cutting, and putting it back is trimming. */
  lemma CutIsTrimmed(kept: seq<Message>, max: int)
    requires kept != [] && max > 1
    ensures var rest := kept[1..];
            Trimmed(kept, Some(max)) == [kept[0]] + if |rest| > max then rest[|rest| - max..] else rest
  {
    var rest := kept[1..];
    if |rest| > max {
      assert rest[|rest| - max..] == kept[|kept| - max..];
    } else {
      assert [kept[0]] + rest == kept;
    }
  }

  // ---------- The processor ----------

  class ChatHistoryMessageProcessor {
    const maxMessageHistory: Option<int>
    const escape: Escape
    var messageHistory: seq<Message>
    var sawFirstSystem: bool
    ghost var processed: seq<Message>  // everything given to the processor so far

    constructor (max: Option<int>, escape: Escape)
      ensures maxMessageHistory == max && this.escape == escape && processed == [] && messageHistory == [] && Valid()
    {
      maxMessageHistory := max;
      this.escape := escape;
      messageHistory := [];
      sawFirstSystem := false;
      processed := [];
    }

    /** What has been processed so far fixes the history, however it was split into batches. */
    ghost predicate Valid()
      reads this
    {
      && sawFirstSystem == SawSystem(processed)
      && messageHistory == Trimmed(KeptOf(processed, escape), maxMessageHistory)
    }

    method ProcessMessage(m: Message)
      modifies this`messageHistory, this`sawFirstSystem
      ensures messageHistory == old(messageHistory) + Kept(m, old(sawFirstSystem), escape)
      ensures var redacted := m.kind == SYSTEM && !old(sawFirstSystem);
              if redacted then messageHistory == old(messageHistory) + [m.(text := Some("<redacted>"))]
              else if m.kind in {HUMAN, SYSTEM, AI} && m.text.Some? then
                messageHistory == old(messageHistory) + [m.(text := Some(escape(m.text.value)))]
              else messageHistory == old(messageHistory)
      ensures sawFirstSystem == (old(sawFirstSystem) || m.kind == SYSTEM)
    {
      if m.kind !in {HUMAN, SYSTEM, AI} {
        return;
      }
      var transformed: Option<Message>;
      if !sawFirstSystem && m.kind == SYSTEM {
        transformed := Some(RedactInstructions(m));
        sawFirstSystem := true;
      } else {
        transformed := EscapeMessage(m, escape);
      }
      if transformed.Some? {
        messageHistory := messageHistory + [transformed.value];
      }
    }

    /** Whether this batch makes the code pop from an empty history. */
    ghost predicate PopsEmpty(batch: seq<Message>)
      reads this
    {
      maxMessageHistory.Some? && maxMessageHistory.value > 1 && KeptOf(processed + batch, escape) == []
    }

    /** The loop inherited from MessageProcessor. */
    method ProcessEach(batch: seq<Message>) returns (ghost more: seq<Message>)
      requires sawFirstSystem == SawSystem(processed)
      modifies this
      ensures processed == old(processed) + batch && sawFirstSystem == SawSystem(processed)
      ensures KeptOf(processed, escape) == KeptOf(old(processed), escape) + more
      ensures messageHistory == old(messageHistory) + more
    {
      more := [];
      ghost var start := processed;
      ghost var kept := KeptOf(start, escape);
      assert start + batch[..0] == start;
      for i := 0 to |batch|
        invariant processed == start + batch[..i] && sawFirstSystem == SawSystem(processed)
        invariant KeptOf(processed, escape) == kept + more
        invariant messageHistory == old(messageHistory) + more
      {
        ghost var longer := processed + [batch[i]];
        ghost var next := Kept(batch[i], sawFirstSystem, escape);
        KeptStep(processed, batch[i], longer, escape, kept, more);
        ProcessMessage(batch[i]);
        Assoc(old(messageHistory), more, next);
        more := more + next;
        OneMore(start, batch, i);
        processed := longer;
      }
      assert batch[..|batch|] == batch;
    }

    /** Cut the history to the instructions and the most recent messages. */
    method Trim() returns (raised: bool)
      modifies this`messageHistory
      ensures raised <==> maxMessageHistory.Some? && maxMessageHistory.value > 1 && old(messageHistory) == []
      ensures messageHistory == if raised then [] else Trimmed(old(messageHistory), maxMessageHistory)
    {
      if maxMessageHistory.None? || maxMessageHistory.value <= 1 {
        return false;
      }
      if messageHistory == [] {
        return true;  // pop(0) raises
      }
      CutIsTrimmed(messageHistory, maxMessageHistory.value);
      var instructions := messageHistory[0];
      messageHistory := messageHistory[1..];
      var n := maxMessageHistory.value;
      if |messageHistory| > n {
        messageHistory := messageHistory[|messageHistory| - n..];
      }
      messageHistory := [instructions] + messageHistory;
      raised := false;
    }

    /** One batch. It raises exactly when there is a maximum and nothing has been kept yet; in any
        case the history is that of one single batch of everything so far. */
    method ProcessMessages(batch: seq<Message>) returns (raised: bool)
      requires Valid()
      modifies this
      ensures Valid() && processed == old(processed) + batch
      ensures raised <==> old(PopsEmpty(batch))
    {
      ghost var kept := KeptOf(processed, escape);
      ghost var more := ProcessEach(batch);
      if kept != [] {
        TrimmedMore(kept, more, maxMessageHistory);
      } else {
        assert messageHistory == kept + more;
      }
      raised := Trim();
    }
  }

  /** What the batches of a conversation leave behind when none of them raises. */
  function AllMessages(batches: seq<seq<Message>>): seq<Message> {
    if batches == [] then [] else AllMessages(batches[..|batches| - 1]) + batches[|batches| - 1]
  }

  /** The kept messages of a conversation, with braces escaped as the code does. */
  function KeptText(messages: seq<Message>): seq<Message> {
    KeptOf(messages, BraceEscaping.EscapeText)
  }

  lemma KeptGrows(messages: seq<Message>, more: seq<Message>, escape: Escape)
    requires KeptOf(messages, escape) != []
    ensures KeptOf(messages + more, escape) != []
  {
    KeptFromHere(messages + more, escape, |messages|);
    assert (messages + more)[..|messages|] == messages;
  }

  predicate HasMaximum(max: Option<int>) {
    max.Some? && max.value > 1
  }

  /** Batch invariance: however a conversation is split, the same history is left - unless there
      is a maximum and the first batch keeps nothing, which is when processing raises. */
  method ProcessBatches(processor: ChatHistoryMessageProcessor, batches: seq<seq<Message>>) returns (raised: bool)
    requires processor.Valid() && processor.processed == []
    modifies processor
    ensures raised <==>
        batches != [] && HasMaximum(processor.maxMessageHistory) && KeptOf(batches[0], processor.escape) == []
    ensures !raised ==>
              processor.messageHistory
                  == Trimmed(KeptOf(AllMessages(batches), processor.escape), processor.maxMessageHistory)
  {
    var max := processor.maxMessageHistory;
    for i := 0 to |batches|
      invariant processor.Valid() && processor.processed == AllMessages(batches[..i])
      invariant i > 0 && HasMaximum(max) ==>
          KeptOf(batches[0], processor.escape) != [] && KeptOf(processor.processed, processor.escape) != []
    {
      assert batches[..i + 1][..i] == batches[..i];
      if i == 0 {
        assert processor.processed + batches[0] == batches[0];
      } else if HasMaximum(max) {
        KeptGrows(processor.processed, batches[i], processor.escape);
      }
      raised := processor.ProcessMessages(batches[i]);
      if raised {
        return;
      }
    }
    assert batches[..|batches|] == batches;
    raised := false;
  }

  // ---------- What the messages of a history look like ----------

  predicate FirstSystem(messages: seq<Message>, i: nat) {
    i < |messages| && messages[i].kind == SYSTEM && forall j :: 0 <= j < i ==> messages[j].kind != SYSTEM
  }

  /** Human, system and AI messages with a text are kept, and the first system message in any case. */
  predicate IsKept(messages: seq<Message>, i: nat) {
    i < |messages| && messages[i].kind in {HUMAN, SYSTEM, AI} && (messages[i].text.Some? || FirstSystem(messages, i))
  }

  /** A run of n equal braces becomes the next even number of them; nothing else changes. */
  function NextEven(c: char, n: nat): nat {
    if c == '{' || c == '}' then 2 * ((n + 1) / 2) else n
  }

  /** How a message is shown: the first system message redacted, any other with its braces escaped
      so that it reads back as a format string without fields. */
  predicate Shows(shown: Message, m: Message, first: bool) {
    && shown.kind == m.kind && shown.rest == m.rest
    && if first then shown.text == Some("<redacted>")
       else
         && m.text.Some? && shown.text == Some(BraceEscaping.MapRuns(m.text.value, NextEven))
         && BraceEscaping.ReadFormat(shown.text.value) == Some(BraceEscaping.Undouble(m.text.value))
  }

  /** `at` are the positions of the messages shown, in order. */
  ghost predicate ShownAt(history: seq<Message>, messages: seq<Message>, at: seq<nat>) {
    && |at| == |history|
    && (forall k, l :: 0 <= k < l < |at| ==> at[k] < at[l])
    && (forall k :: 0 <= k < |at| ==>
          IsKept(messages, at[k]) && Shows(history[k], messages[at[k]], FirstSystem(messages, at[k])))
  }

  lemma EscapedIsShown(m: Message)
    requires m.text.Some?
    ensures Shows(EscapeMessage(m, BraceEscaping.EscapeText).value, m, false)
  {
    var s := m.text.value;
    BraceEscaping.EscapeEvensRuns(s);
    BraceEscaping.MapRunsSame(s, BraceEscaping.EvenBraces, NextEven);
    BraceEscaping.EscapedTextReadsBack(s);
  }

  lemma StaysShown(history: seq<Message>, front: seq<Message>, m: Message, at: seq<nat>)
    requires ShownAt(history, front, at)
    ensures ShownAt(history, front + [m], at)
    ensures forall i: nat :: i < |front| ==> (IsKept(front + [m], i) <==> IsKept(front, i))
  {
    var messages := front + [m];
    assert forall j :: 0 <= j < |front| ==> messages[j] == front[j];
  }

  lemma LastIsShown(front: seq<Message>, m: Message)
    ensures var kept := Kept(m, SawSystem(front), BraceEscaping.EscapeText); var messages := front + [m];
            && (|kept| == if IsKept(messages, |front|) then 1 else 0)
            && (|kept| == 1 ==> Shows(kept[0], m, FirstSystem(messages, |front|)))
  {
    var messages := front + [m];
    assert messages[|front|] == m;
    assert forall j :: 0 <= j < |front| ==> messages[j] == front[j] && front[j] in front;
    assert FirstSystem(messages, |front|) <==> m.kind == SYSTEM && !SawSystem(front);
    if m.text.Some? { EscapedIsShown(m); }
  }

  /** The kept messages of a conversation are exactly those that are to be kept, in order, each as
      it is to be shown. */
  lemma {:induction false} KeptAreShown(messages: seq<Message>) returns (at: seq<nat>)
    ensures ShownAt(KeptText(messages), messages, at)
    ensures forall i: nat :: IsKept(messages, i) ==> i in at
  {
    if messages == [] {
      at := [];
    } else {
      var front, m := messages[..|messages| - 1], messages[|messages| - 1];
      assert messages == front + [m];
      at := KeptAreShown(front);
      StaysShown(KeptText(front), front, m, at);
      LastIsShown(front, m);
      var kept := Kept(m, SawSystem(front), BraceEscaping.EscapeText);
      assert KeptText(messages) == KeptText(front) + kept;
      if IsKept(messages, |front|) {
        assert kept == [kept[0]] && forall k :: 0 <= k < |at| ==> at[k] < |front|;
        at := at + [|front|];
      }
    }
  }

  /** What a maximum leaves out: kept messages between the first one and the most recent ones. */
  ghost predicate LeavesOut(messages: seq<Message>, at: seq<nat>, max: Option<int>) {
    && (HasMaximum(max) ==> |at| <= max.value + 1)
    && forall i: nat :: IsKept(messages, i) && i !in at ==>
         HasMaximum(max) && |at| == max.value + 1 && at[0] < i < at[1]
  }

  /** Position k of a trimmed history is position `j` of the kept messages. */
  lemma TrimmedPosition(kept: seq<Message>, all: seq<nat>, at: seq<nat>, max: int, k: nat) returns (j: nat)
    requires 1 < max && |all| == |kept| > max + 1 && at == [all[0]] + all[|all| - max..] && k < |at|
    ensures j == (if k == 0 then 0 else |all| - max + k - 1) && j < |all|
    ensures at[k] == all[j] && Trimmed(kept, Some(max))[k] == kept[j]
  {
    j := if k == 0 then 0 else |all| - max + k - 1;
  }

  lemma TrimmedAt(kept: seq<Message>, all: seq<nat>, at: seq<nat>, max: int, messages: seq<Message>)
    requires 1 < max && |kept| > max + 1
    requires ShownAt(kept, messages, all) && at == [all[0]] + all[|all| - max..]
    ensures ShownAt(Trimmed(kept, Some(max)), messages, at)
  {
    var short := Trimmed(kept, Some(max));
    forall k | 0 <= k < |at|
      ensures IsKept(messages, at[k]) && Shows(short[k], messages[at[k]], FirstSystem(messages, at[k]))
    {
      var j := TrimmedPosition(kept, all, at, max, k);
    }
    forall k, l | 0 <= k < l < |at| ensures at[k] < at[l] {
      var i := TrimmedPosition(kept, all, at, max, k);
      var j := TrimmedPosition(kept, all, at, max, l);
    }
  }

  lemma TrimmedLeavesOut(all: seq<nat>, at: seq<nat>, max: int, messages: seq<Message>)
    requires 1 < max && |all| > max + 1 && at == [all[0]] + all[|all| - max..]
    requires forall k, l :: 0 <= k < l < |all| ==> all[k] < all[l]
    requires forall i: nat :: IsKept(messages, i) ==> i in all
    ensures LeavesOut(messages, at, Some(max))
  {
    var cut := |all| - max;
    forall j | cut <= j < |all| ensures all[j] in at {
      assert at[j - cut + 1] == all[j];
    }
    forall i: nat | IsKept(messages, i) && i !in at ensures at[0] < i < at[1] {
      var j :| 0 <= j < |all| && all[j] == i;
      assert at[0] == all[0] && at[1] == all[cut];
    }
  }

  lemma TrimmedIsShownFrom(kept: seq<Message>, all: seq<nat>, max: Option<int>, messages: seq<Message>)
      returns (at: seq<nat>)
    requires ShownAt(kept, messages, all) && forall i: nat :: IsKept(messages, i) ==> i in all
    ensures ShownAt(Trimmed(kept, max), messages, at) && LeavesOut(messages, at, max)
  {
    if HasMaximum(max) && |kept| > max.value + 1 {
      at := [all[0]] + all[|all| - max.value..];
      TrimmedAt(kept, all, at, max.value, messages);
      TrimmedLeavesOut(all, at, max.value, messages);
    } else {
      at := all;
    }
  }

  lemma TrimmedIsShown(messages: seq<Message>, max: Option<int>) returns (at: seq<nat>)
    ensures ShownAt(Trimmed(KeptText(messages), max), messages, at) && LeavesOut(messages, at, max)
  {
    var all := KeptAreShown(messages);
    at := TrimmedIsShownFrom(KeptText(messages), all, max, messages);
  }

  lemma NothingKeptIff(messages: seq<Message>)
    ensures KeptText(messages) == [] <==> forall i: nat :: !IsKept(messages, i)
  {
    var at := KeptAreShown(messages);
    if at != [] {
      assert IsKept(messages, at[0]);
    }
  }

  /** The same for a processor that escapes as the code does; None when it raises. Every message of
      the history shows the message at its position of the conversation. */
  method ProcessConversation(max: Option<int>, batches: seq<seq<Message>>)
    returns (history: Option<seq<Message>>, ghost at: seq<nat>)
    ensures history.None? <==> batches != [] && HasMaximum(max) && forall i: nat :: !IsKept(batches[0], i)
    ensures history.Some? ==> history.value == Trimmed(KeptText(AllMessages(batches)), max)
    ensures history.Some? ==> ShownAt(history.value, AllMessages(batches), at)
    ensures history.Some? ==> LeavesOut(AllMessages(batches), at, max)
  {
    at := TrimmedIsShown(AllMessages(batches), max);
    if batches != [] {
      NothingKeptIff(batches[0]);
    }
    var processor := new ChatHistoryMessageProcessor(max, BraceEscaping.EscapeText);
    var raised := ProcessBatches(processor, batches);
    history := if raised then None else Some(processor.messageHistory);
  }

  /** Trimming as the constructor documents it: any positive maximum counts. */
  function Documented(kept: seq<Message>, max: Option<int>): seq<Message> {
    if max.None? || max.value <= 0 || kept == [] then kept
    else
      var recent := kept[1..];
      [kept[0]] + if |recent| <= max.value then recent else recent[|recent| - max.value..]
  }

  /** The code trims as documented exactly when the maximum is not one, or there is nothing to
      trim: a maximum of one is no maximum. */
  lemma TrimsAsDocumentedIff(kept: seq<Message>, max: Option<int>)
    ensures Trimmed(kept, max) == Documented(kept, max) <==> max != Some(1) || |kept| <= 2
  {
    if kept != [] {
      assert [kept[0]] + kept[1..] == kept;
      if max.Some? && max.value > 1 { CutIsTrimmed(kept, max.value); }
    }
  }
}
