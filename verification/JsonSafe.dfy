/** neuro_san/service/generic/chat_message_converter.py

    Chat responses made ready for JSON: a recursive projection onto what JSON can hold, and then
    message types replaced by their names, also inside nested chat histories. */
module JsonSafe {
  import opened Wrappers

  datatype ChatMessageType =
    | UNKNOWN_MESSAGE_TYPE | SYSTEM | HUMAN | AI | AGENT | AGENT_FRAMEWORK | AGENT_TOOL_RESULT | AGENT_PROGRESS

  datatype Key = StrKey(s: string) | OtherKey(n: int)

  /** A Python value. Members of enums over int or str other than ChatMessageType count as the
      number or text they are. */
  datatype Value =
    | NoneValue | Str(s: string) | Int(n: int) | Float(f: int)
    | Type(t: ChatMessageType)
    | EnumMember(value: Value)
    | Dict(entries: seq<Pair>) | List(items: seq<Value>) | Tuple(items: seq<Value>)
    | Object(id: int)

  datatype Pair = Pair(key: Key, value: Value)

  predicate Primitive(v: Value) {
    v.NoneValue? || v.Str? || v.Int? || v.Float?
  }

  // ---------- The projection ----------

  function ToJsonSafe(v: Value): Value {
    match v
    case EnumMember(value) => if Primitive(value) || value.Type? then value else NoneValue
    case Dict(entries) => Dict(SafeEntries(entries))
    case List(items) => List(SafeItems(items))
    case Tuple(items) => List(SafeItems(items))
    case Object(_) => NoneValue
    case _ => v
  }

  function SafeEntries(entries: seq<Pair>): seq<Pair> {
    if entries == [] then []
    else
      var first, rest := entries[0], SafeEntries(entries[1..]);
      assert first.value < first;
      if first.key.StrKey? then [Pair(first.key, ToJsonSafe(first.value))] + rest else rest
  }

  function SafeItems(items: seq<Value>): seq<Value> {
    if items == [] then [] else [ToJsonSafe(items[0])] + SafeItems(items[1..])
  }

  /** Strings, numbers, None, message types, and lists and string-keyed dictionaries of these. */
  predicate Safe(v: Value) {
    match v
    case EnumMember(_) => false
    case Tuple(_) => false
    case Object(_) => false
    case Dict(entries) => forall e :: e in entries ==> e.key.StrKey? && Safe(e.value)
    case List(items) => forall x :: x in items ==> Safe(x)
    case _ => true
  }

  lemma {:induction false} ProjectionIsSafe(v: Value)
    ensures Safe(ToJsonSafe(v))
  {
    match v
    case Dict(entries) => EntriesAreSafe(entries);
    case List(items) => ItemsAreSafe(items);
    case Tuple(items) => ItemsAreSafe(items);
    case _ =>
  }

  lemma {:induction false} EntriesAreSafe(entries: seq<Pair>)
    ensures forall e :: e in SafeEntries(entries) ==> e.key.StrKey? && Safe(e.value)
  {
    if entries == [] {
    } else {
      var first := entries[0];
      assert first.value < first;
      ProjectionIsSafe(first.value);
      EntriesAreSafe(entries[1..]);
    }
  }

  lemma {:induction false} ItemsAreSafe(items: seq<Value>)
    ensures forall x :: x in SafeItems(items) ==> Safe(x)
  {
    if items == [] {
    } else {
      ProjectionIsSafe(items[0]);
      ItemsAreSafe(items[1..]);
    }
  }

  /** The projection leaves alone exactly what is safe already. */
  lemma {:induction false} ProjectionFixesSafe(v: Value)
    requires Safe(v)
    ensures ToJsonSafe(v) == v
  {
    match v
    case Dict(entries) => EntriesFixed(entries);
    case List(items) => ItemsFixed(items);
    case _ =>
  }

  lemma {:induction false} EntriesFixed(entries: seq<Pair>)
    requires forall e :: e in entries ==> e.key.StrKey? && Safe(e.value)
    ensures SafeEntries(entries) == entries
  {
    if entries == [] {
    } else {
      assert entries[0] in entries && forall e :: e in entries[1..] ==> e in entries;
      var first := entries[0];
      assert first.value < first;
      ProjectionFixesSafe(first.value);
      EntriesFixed(entries[1..]);
    }
  }

  lemma {:induction false} ItemsFixed(items: seq<Value>)
    requires forall x :: x in items ==> Safe(x)
    ensures SafeItems(items) == items
  {
    if items == [] {
    } else {
      assert items[0] in items && forall x :: x in items[1..] ==> x in items;
      ProjectionFixesSafe(items[0]);
      ItemsFixed(items[1..]);
    }
  }

  lemma ProjectionFixesIff(v: Value)
    ensures ToJsonSafe(v) == v <==> Safe(v)
    ensures ToJsonSafe(ToJsonSafe(v)) == ToJsonSafe(v)
  {
    ProjectionIsSafe(v);
    ProjectionFixesSafe(ToJsonSafe(v));
    if Safe(v) { ProjectionFixesSafe(v); }
  }

  lemma {:induction false} SafeItemsAt(items: seq<Value>)
    ensures |SafeItems(items)| == |items|
    ensures forall i :: 0 <= i < |items| ==> SafeItems(items)[i] == ToJsonSafe(items[i])
  {
    if items == [] {
    } else {
      SafeItemsAt(items[1..]);
    }
  }

  lemma {:induction false} SafeEntriesJoin(a: seq<Pair>, b: seq<Pair>)
    ensures SafeEntries(a + b) == SafeEntries(a) + SafeEntries(b)
  {
    if a == [] {
      assert a + b == b;
    } else {
      SafeEntriesJoin(a[1..], b);
      assert (a + b)[0] == a[0] && (a + b)[1..] == a[1..] + b;
    }
  }

  /** What the projection makes of each kind of value, part by part. */
  lemma ProjectionByParts(v: Value)
    ensures v.NoneValue? || v.Str? || v.Int? || v.Float? || v.Type? ==> ToJsonSafe(v) == v
    ensures v.Object? ==> ToJsonSafe(v) == NoneValue
    ensures v.EnumMember? ==>
              match v.value
              case Dict(_) => ToJsonSafe(v) == NoneValue
              case List(_) => ToJsonSafe(v) == NoneValue
              case Tuple(_) => ToJsonSafe(v) == NoneValue
              case Object(_) => ToJsonSafe(v) == NoneValue
              case EnumMember(_) => ToJsonSafe(v) == NoneValue
              case _ => ToJsonSafe(v) == v.value
    ensures v.List? || v.Tuple? ==>
              && ToJsonSafe(v).List? && |ToJsonSafe(v).items| == |v.items|
              && forall i :: 0 <= i < |v.items| ==> ToJsonSafe(v).items[i] == ToJsonSafe(v.items[i])
  {
    match v
    case List(items) => SafeItemsAt(items);
    case Tuple(items) => SafeItemsAt(items);
    case _ =>
  }

  /** A dictionary is projected entry by entry, and an entry stays iff its key is a string. */
  lemma DictionaryByEntries(a: seq<Pair>, e: Pair, b: seq<Pair>)
    ensures ToJsonSafe(Dict([])) == Dict([]) && ToJsonSafe(Dict(a)).Dict? && ToJsonSafe(Dict(b)).Dict?
    ensures ToJsonSafe(Dict(a + [e] + b)) == Dict(ToJsonSafe(Dict(a)).entries
        + (if e.key.StrKey? then [Pair(e.key, ToJsonSafe(e.value))] else []) + ToJsonSafe(Dict(b)).entries)
  {
    assert e.value < e;
    SafeEntriesJoin(a + [e], b);
    SafeEntriesJoin(a, [e]);
    assert SafeEntries([e]) == if e.key.StrKey? then [Pair(e.key, ToJsonSafe(e.value))] else [];
  }

  // ---------- Message types become names ----------

  function TypeName(t: ChatMessageType): string {
    match t
    case UNKNOWN_MESSAGE_TYPE => "UNKNOWN_MESSAGE_TYPE"
    case SYSTEM => "SYSTEM"
    case HUMAN => "HUMAN"
    case AI => "AI"
    case AGENT => "AGENT"
    case AGENT_FRAMEWORK => "AGENT_FRAMEWORK"
    case AGENT_TOOL_RESULT => "AGENT_TOOL_RESULT"
    case AGENT_PROGRESS => "AGENT_PROGRESS"
  }

  function TypeOfNumber(n: int): Option<ChatMessageType> {
    if n == 0 then Some(UNKNOWN_MESSAGE_TYPE) else if n == 1 then Some(SYSTEM) else if n == 2 then Some(HUMAN)
    else if n == 4 then Some(AI) else if n == 100 then Some(AGENT) else if n == 101 then Some(AGENT_FRAMEWORK)
    else if n == 103 then Some(AGENT_TOOL_RESULT) else if n == 104 then Some(AGENT_PROGRESS) else None
  }

  predicate IsTypeName(s: string) {
    s in {"UNKNOWN_MESSAGE_TYPE", "SYSTEM", "HUMAN", "AI", "AGENT", "AGENT_FRAMEWORK", "AGENT_TOOL_RESULT",
        "AGENT_PROGRESS"}
  }

  /** `ChatMessageType.from_response_type(v).name`, or None when it raises. */
  function NameOf(v: Value): Option<string> {
    match v
    case Type(t) => Some(TypeName(t))
    case Int(n) => if TypeOfNumber(n).Some? then Some(TypeName(TypeOfNumber(n).value)) else None
    case Str(s) => if IsTypeName(s) then Some(s) else None
    case _ => None
  }

  lemma NamesAreNames(v: Value)
    ensures NameOf(v).Some? ==> IsTypeName(NameOf(v).value) && NameOf(Str(NameOf(v).value)) == NameOf(v)
  {
  }

  /** The message types, their numbers and their names. */
  predicate IsRow(t: ChatMessageType, n: int, name: string) {
    (t, n, name) in {
      (UNKNOWN_MESSAGE_TYPE, 0, "UNKNOWN_MESSAGE_TYPE"), (SYSTEM, 1, "SYSTEM"), (HUMAN, 2, "HUMAN"), (AI, 4, "AI"),
      (AGENT, 100, "AGENT"), (AGENT_FRAMEWORK, 101, "AGENT_FRAMEWORK"),
      (AGENT_TOOL_RESULT, 103, "AGENT_TOOL_RESULT"), (AGENT_PROGRESS, 104, "AGENT_PROGRESS")
    }
  }

  /** A type, its number and its name all have that name. */
  ghost predicate HasName(v: Value, name: string) {
    exists t, n :: IsRow(t, n, name) && v in {Type(t), Int(n), Str(name)}
  }

  lemma RowOf(t: ChatMessageType) returns (n: int)
    ensures IsRow(t, n, TypeName(t))
  {
    n := match t
         case UNKNOWN_MESSAGE_TYPE => 0
         case SYSTEM => 1
         case HUMAN => 2
         case AI => 4
         case AGENT => 100
         case AGENT_FRAMEWORK => 101
         case AGENT_TOOL_RESULT => 103
         case AGENT_PROGRESS => 104;
  }

  lemma NameIsInTable(v: Value)
    ensures NameOf(v).Some? ==> HasName(v, NameOf(v).value)
    ensures forall name :: HasName(v, name) ==> NameOf(v) == Some(name)
  {
    match v
    case Type(t) => var n := RowOf(t);
    case Int(n) => if TypeOfNumber(n).Some? { assert IsRow(TypeOfNumber(n).value, n, NameOf(v).value); }
    case Str(s) =>
      if IsTypeName(s) {
        var t := TypeNamed(s);
        var n := RowOf(t);
      }
    case _ =>
  }

  lemma TypeNamed(s: string) returns (t: ChatMessageType)
    requires IsTypeName(s)
    ensures TypeName(t) == s
  {
    t := if s == "SYSTEM" then SYSTEM else if s == "HUMAN" then HUMAN else if s == "AI" then AI
         else if s == "AGENT" then AGENT else if s == "AGENT_FRAMEWORK" then AGENT_FRAMEWORK
         else if s == "AGENT_TOOL_RESULT" then AGENT_TOOL_RESULT else if s == "AGENT_PROGRESS" then AGENT_PROGRESS
         else UNKNOWN_MESSAGE_TYPE;
  }

  function Find(entries: seq<Pair>, key: string): (i: int)
    ensures -1 <= i < |entries|
    ensures i >= 0 ==> entries[i].key == StrKey(key) && forall j :: 0 <= j < i ==> entries[j].key != StrKey(key)
    ensures i < 0 ==> forall j :: 0 <= j < |entries| ==> entries[j].key != StrKey(key)
  {
    if entries == [] then -1
    else if entries[0].key == StrKey(key) then 0
    else
      var i := Find(entries[1..], key);
      if i < 0 then -1 else i + 1
  }

  /** Where a value sits: a message, the context of a message, one history of it, or a list of
      histories or messages. */
  datatype Level = AMessage | AContext | Histories | AHistory | Messages

  /** The key under which the next level is found, and what is there. */
  function InnerKey(level: Level): string {
    match level
    case AMessage => "chat_context"
    case AContext => "chat_histories"
    case _ => "messages"
  }

  function InnerLevel(level: Level): Level {
    match level
    case AMessage => AContext
    case AContext => Histories
    case Histories => AHistory
    case AHistory => Messages
    case Messages => AMessage
  }

  predicate IsList(level: Level) {
    level == Histories || level == Messages
  }

  /** The entry of `type` replaced by its name. A missing or None type stays. */
  function NameType(entries: seq<Pair>): Option<seq<Pair>> {
    var i := Find(entries, "type");
    if i < 0 || entries[i].value.NoneValue? then Some(entries)
    else match NameOf(entries[i].value)
         case None => None
         case Some(name) => Some(entries[i := Pair(StrKey("type"), Str(name))])
  }

  /** What conversion makes of a value at a level, or None when it raises. A missing inner value
      is skipped, and so is a context that is None. */
  function Converted(level: Level, v: Value): Option<Value>
    decreases v
  {
    if IsList(level) then
      match v
      case List(items) =>
        var r := ConvertedItems(level, items);
        if r.None? then None else Some(List(r.value))
      case Str(s) => if s == "" then Some(v) else None
      case Dict(entries) => if entries == [] then Some(v) else None
      case _ => None
    else if !v.Dict? then None
    else
      var named := if level == AMessage then NameType(v.entries) else Some(v.entries);
      var i := Find(v.entries, InnerKey(level));
      if named.None? then None
      else if i < 0 || (level == AMessage && v.entries[i].value.NoneValue?) then Some(Dict(named.value))
      else
        var inner := Converted(InnerLevel(level), v.entries[i].value);
        if inner.None? then None else Some(Dict(named.value[i := Pair(StrKey(InnerKey(level)), inner.value)]))
  }

  function ConvertedItems(level: Level, items: seq<Value>): (r: Option<seq<Value>>)
    ensures r.Some? ==> |r.value| == |items|
    ensures r.Some? ==> forall i :: 0 <= i < |items| ==> Converted(InnerLevel(level), items[i]) == Some(r.value[i])
    decreases items
  {
    if items == [] then Some([])
    else
      var first, rest := Converted(InnerLevel(level), items[0]), ConvertedItems(level, items[1..]);
      if first.None? || rest.None? then None else Some([first.value] + rest.value)
  }

  lemma {:induction false} AllConverted(level: Level, items: seq<Value>, done: seq<Value>)
    requires |done| == |items|
    requires forall i :: 0 <= i < |items| ==> Converted(InnerLevel(level), items[i]) == Some(done[i])
    ensures ConvertedItems(level, items) == Some(done)
  {
    if items == [] {
    } else {
      assert forall i :: 0 <= i < |items| - 1 ==> items[1..][i] == items[i + 1] && done[1..][i] == done[i + 1];
      AllConverted(level, items[1..], done[1..]);
      assert done == [done[0]] + done[1..];
    }
  }

  lemma OneFails(level: Level, items: seq<Value>, i: nat)
    requires i < |items| && Converted(InnerLevel(level), items[i]).None?
    ensures ConvertedItems(level, items) == None
  {
  }

  // ---------- The conversion as written ----------

  method ConvertMessage(message: Value) returns (r: Option<Value>)
    ensures r == Converted(AMessage, message)
    decreases message
  {
    if !message.Dict? {
      return None;
    }
    var entries := message.entries;
    var i := Find(entries, "type");
    if i >= 0 && !entries[i].value.NoneValue? {
      var name := NameOf(entries[i].value);
      if name.None? {
        return None;
      }
      entries := entries[i := Pair(StrKey("type"), Str(name.value))];
    }
    var c := Find(message.entries, "chat_context");
    if c < 0 || message.entries[c].value.NoneValue? {
      return Some(Dict(entries));
    }
    var context := ConvertContext(message.entries[c].value);
    if context.None? {
      return None;
    }
    r := Some(Dict(entries[c := Pair(StrKey("chat_context"), context.value)]));
  }

  method ConvertContext(context: Value) returns (r: Option<Value>)
    ensures r == Converted(AContext, context)
    decreases context
  {
    if !context.Dict? {
      return None;
    }
    var i := Find(context.entries, "chat_histories");
    if i < 0 {
      return Some(context);
    }
    var histories := context.entries[i].value;
    if histories == Str("") || histories == Dict([]) {
      assert context.entries[i := Pair(StrKey("chat_histories"), histories)] == context.entries;
      return Some(context);
    }
    if !histories.List? {
      return None;
    }
    var done := ConvertHistories(histories.items);
    if done.None? {
      return None;
    }
    r := Some(Dict(context.entries[i := Pair(StrKey("chat_histories"), List(done.value))]));
  }

  method ConvertHistories(histories: seq<Value>) returns (r: Option<seq<Value>>)
    ensures r == ConvertedItems(Histories, histories)
    decreases histories
  {
    var done: seq<Value> := [];
    for h := 0 to |histories|
      invariant |done| == h
      invariant forall j :: 0 <= j < h ==> Converted(AHistory, histories[j]) == Some(done[j])
    {
      var history := ConvertHistory(histories[h]);
      if history.None? {
        OneFails(Histories, histories, h);
        return None;
      }
      done := done + [history.value];
    }
    AllConverted(Histories, histories, done);
    r := Some(done);
  }

  method ConvertHistory(history: Value) returns (r: Option<Value>)
    ensures r == Converted(AHistory, history)
    decreases history
  {
    if !history.Dict? {
      return None;
    }
    var i := Find(history.entries, "messages");
    if i < 0 {
      return Some(history);
    }
    var messages := history.entries[i].value;
    if messages == Str("") || messages == Dict([]) {
      assert history.entries[i := Pair(StrKey("messages"), messages)] == history.entries;
      return Some(history);
    }
    if !messages.List? {
      return None;
    }
    var done := ConvertMessages(messages.items);
    if done.None? {
      return None;
    }
    r := Some(Dict(history.entries[i := Pair(StrKey("messages"), List(done.value))]));
  }

  method ConvertMessages(messages: seq<Value>) returns (r: Option<seq<Value>>)
    ensures r == ConvertedItems(Messages, messages)
    decreases messages
  {
    var done: seq<Value> := [];
    for m := 0 to |messages|
      invariant |done| == m
      invariant forall j :: 0 <= j < m ==> Converted(AMessage, messages[j]) == Some(done[j])
    {
      var message := ConvertMessage(messages[m]);
      if message.None? {
        OneFails(Messages, messages, m);
        return None;
      }
      done := done + [message.value];
    }
    AllConverted(Messages, messages, done);
    r := Some(done);
  }

  function ResponseOf(response: Value): Option<Value> {
    if !response.Dict? then None
    else
      var i := Find(response.entries, "response");
      if i < 0 || response.entries[i].value.NoneValue? then Some(response)
      else
        var message := Converted(AMessage, response.entries[i].value);
        if message.None? then None else Some(Dict(response.entries[i := Pair(StrKey("response"), message.value)]))
  }

  // ---------- What conversion promises ----------

  /** The type of this message, and of every message below it, is missing, None or a name. */
  predicate TypesNamed(level: Level, v: Value)
    decreases v
  {
    if IsList(level) then v.List? ==> forall x :: x in v.items ==> TypesNamed(InnerLevel(level), x)
    else v.Dict? ==>
      && (level == AMessage ==> forall e :: e in v.entries && e.key == StrKey("type") ==>
          e.value.NoneValue? || (e.value.Str? && IsTypeName(e.value.s)))
      && (forall e :: e in v.entries && e.key == StrKey(InnerKey(level)) ==> TypesNamed(InnerLevel(level), e.value))
  }

  /** The same value except for the types of messages. */
  predicate SameButTypes(level: Level, v: Value, w: Value)
    decreases v
  {
    if IsList(level) then
      if v.List? then w.List? && |v.items| == |w.items| && forall i :: 0 <= i < |v.items| ==>
          SameButTypes(InnerLevel(level), v.items[i], w.items[i])
      else v == w
    else if v.Dict? then
      w.Dict? && |v.entries| == |w.entries| &&
      forall i :: 0 <= i < |v.entries| ==>
        var a, b := v.entries[i], w.entries[i];
        a.key == b.key &&
        if level == AMessage && a.key == StrKey("type") then true
        else if a.key == StrKey(InnerKey(level)) then SameButTypes(InnerLevel(level), a.value, b.value)
        else a.value == b.value
    else v == w
  }

  /** Dictionaries have each key once, at every depth. */
  predicate KeysOnce(v: Value) {
    match v
    case Dict(entries) =>
      && (forall i, j :: 0 <= i < j < |entries| ==> entries[i].key != entries[j].key)
      && (forall e :: e in entries ==> KeysOnce(e.value))
    case List(items) => forall x :: x in items ==> KeysOnce(x)
    case Tuple(items) => forall x :: x in items ==> KeysOnce(x)
    case EnumMember(value) => KeysOnce(value)
    case _ => true
  }

  lemma KeysDiffer(level: Level)
    ensures InnerKey(level) != "type"
  {
    assert |"chat_context"| == 12 && |"chat_histories"| == 14 && |"messages"| == 8 && |"type"| == 4;
  }

  lemma {:induction false} NothingIsSame(level: Level, v: Value)
    ensures SameButTypes(level, v, v)
    decreases v
  {
    if IsList(level) && v.List? {
      forall i | 0 <= i < |v.items| { NothingIsSame(InnerLevel(level), v.items[i]); }
    } else if !IsList(level) && v.Dict? {
      forall i | 0 <= i < |v.entries| { NothingIsSame(InnerLevel(level), v.entries[i].value); }
    }
  }

  predicate TypeEntry(level: Level, e: Pair) {
    level == AMessage && e.key == StrKey("type")
  }

  /** What conversion makes of each entry of a dictionary. */
  lemma ConvertedEntry(level: Level, entries: seq<Pair>, i: nat)
    requires !IsList(level) && Converted(level, Dict(entries)).Some? && i < |entries|
    requires forall j, k :: 0 <= j < k < |entries| ==> entries[j].key != entries[k].key
    ensures var w := Converted(level, Dict(entries)).value;
            && w.Dict? && |w.entries| == |entries| && w.entries[i].key == entries[i].key
            && (TypeEntry(level, entries[i]) ==>
                w.entries[i].value.NoneValue? || (w.entries[i].value.Str? && IsTypeName(w.entries[i].value.s)))
            && (entries[i].key == StrKey(InnerKey(level)) ==>
                  if level == AMessage && entries[i].value.NoneValue? then w.entries[i] == entries[i]
                  else Converted(InnerLevel(level), entries[i].value) == Some(w.entries[i].value))
            && (entries[i].key != StrKey(InnerKey(level)) && !TypeEntry(level, entries[i]) ==>
                w.entries[i] == entries[i])
  {
    KeysDiffer(level);
    if level == AMessage { NamedEntry(entries, i); }
    assert entries[i].key == StrKey(InnerKey(level)) ==> Find(entries, InnerKey(level)) == i;
  }

  lemma NamedEntry(entries: seq<Pair>, i: nat)
    requires NameType(entries).Some? && i < |entries|
    requires forall j, k :: 0 <= j < k < |entries| ==> entries[j].key != entries[k].key
    ensures var named := NameType(entries).value;
            && |named| == |entries| && named[i].key == entries[i].key
            && (entries[i].key != StrKey("type") ==> named[i] == entries[i])
            && (entries[i].key == StrKey("type") ==>
                named[i].value.NoneValue? || (named[i].value.Str? && IsTypeName(named[i].value.s)))
  {
    var t := Find(entries, "type");
    if t >= 0 { NamesAreNames(entries[t].value); }
    assert entries[i].key == StrKey("type") ==> t == i;
  }

  /** After conversion every type is a name, at any depth, and nothing but types has changed. */
  lemma {:induction false} ConversionNamesTypes(level: Level, v: Value)
    requires KeysOnce(v) && Converted(level, v).Some?
    ensures TypesNamed(level, Converted(level, v).value) && SameButTypes(level, v, Converted(level, v).value)
    decreases v, 1
  {
    var w := Converted(level, v).value;
    if IsList(level) {
      if v.List? {
        forall i | 0 <= i < |v.items|
          ensures TypesNamed(InnerLevel(level), w.items[i]) && SameButTypes(InnerLevel(level), v.items[i], w.items[i])
        {
          assert v.items[i] in v.items;
          ConversionNamesTypes(InnerLevel(level), v.items[i]);
        }
      }
    } else {
      KeysDiffer(level);
      forall i | 0 <= i < |v.entries|
        ensures |w.entries| == |v.entries| && v.entries[i].key == w.entries[i].key
        ensures v.entries[i].key == StrKey(InnerKey(level)) ==>
                  TypesNamed(InnerLevel(level), w.entries[i].value) &&
                      SameButTypes(InnerLevel(level), v.entries[i].value, w.entries[i].value)
        ensures TypeEntry(level, v.entries[i]) ==>
                  w.entries[i].value.NoneValue? || (w.entries[i].value.Str? && IsTypeName(w.entries[i].value.s))
        ensures v.entries[i].key != StrKey(InnerKey(level)) && !TypeEntry(level, v.entries[i]) ==>
            v.entries[i].value == w.entries[i].value
      {
        assert v.entries[i] in v.entries;
        ConvertedEntry(level, v.entries, i);
        if v.entries[i].key == StrKey(InnerKey(level)) {
          EntryNamesTypes(level, v.entries[i].value, w.entries[i].value);
        }
      }
    }
  }

  /** The type of a converted message is the name that the table has for it. */
  lemma TypeIsNamedByTable(message: Value, t: nat)
    requires KeysOnce(message) && Converted(AMessage, message).Some?
    requires t < |message.entries| && message.entries[t].key == StrKey("type")
    ensures var w := Converted(AMessage, message).value;
            && w.Dict? && |w.entries| == |message.entries| && w.entries[t].key == StrKey("type")
            && if message.entries[t].value.NoneValue? then w.entries[t].value == NoneValue
               else w.entries[t].value.Str? && HasName(message.entries[t].value, w.entries[t].value.s)
  {
    KeysDiffer(AMessage);
    assert Find(message.entries, "type") == t;
    NameIsInTable(message.entries[t].value);
  }

  predicate Holds(v: Value, key: string, inner: Value) {
    v.Dict? && Pair(StrKey(key), inner) in v.entries
  }

  lemma HeldIsConverted(level: Level, v: Value, inner: Value) returns (after: Value)
    requires KeysOnce(v) && !IsList(level) && Converted(level, v).Some?
    requires Holds(v, InnerKey(level), inner) && !inner.NoneValue?
    ensures Holds(Converted(level, v).value, InnerKey(level), after)
    ensures KeysOnce(inner) && Converted(InnerLevel(level), inner) == Some(after)
  {
    var i :| 0 <= i < |v.entries| && v.entries[i] == Pair(StrKey(InnerKey(level)), inner);
    ConvertedEntry(level, v.entries, i);
    after := Converted(level, v).value.entries[i].value;
    assert Converted(level, v).value.entries[i] == Pair(StrKey(InnerKey(level)), after);
  }

  /** The messages inside the histories inside the context of a message are converted as messages,
      each in its place. */
  lemma NestedMessageIsConverted(v: Value, context: Value, histories: seq<Value>, i: nat, messages: seq<Value>, j: nat)
      returns (context': Value, histories': seq<Value>, messages': seq<Value>)
    requires KeysOnce(v) && Converted(AMessage, v).Some?
    requires Holds(v, "chat_context", context) && Holds(context, "chat_histories", List(histories))
    requires i < |histories| && Holds(histories[i], "messages", List(messages)) && j < |messages|
    ensures Holds(Converted(AMessage, v).value, "chat_context", context')
    ensures Holds(context', "chat_histories", List(histories')) && |histories'| == |histories|
    ensures Holds(histories'[i], "messages", List(messages')) && |messages'| == |messages|
    ensures Converted(AMessage, messages[j]) == Some(messages'[j])
  {
    context' := HeldIsConverted(AMessage, v, context);
    var done := HeldIsConverted(AContext, context, List(histories));
    histories' := done.items;
    assert histories[i] in histories;
    var messagesDone := HeldIsConverted(AHistory, histories[i], List(messages));
    messages' := messagesDone.items;
  }

  lemma {:induction false} EntryNamesTypes(level: Level, before: Value, after: Value)
    requires KeysOnce(before)
    requires if level == AMessage && before.NoneValue? then after == before
        else Converted(InnerLevel(level), before) == Some(after)
    ensures TypesNamed(InnerLevel(level), after) && SameButTypes(InnerLevel(level), before, after)
    decreases before, 2
  {
    if level == AMessage && before.NoneValue? {
      NothingIsSame(InnerLevel(level), before);
    } else {
      ConversionNamesTypes(InnerLevel(level), before);
    }
  }

  lemma {:induction false} FindAfter(v: seq<Pair>, w: seq<Pair>, key: string)
    requires |v| == |w| && forall i :: 0 <= i < |v| ==> v[i].key == w[i].key
    ensures Find(w, key) == Find(v, key)
  {
    if v != [] && v[0].key != StrKey(key) { FindAfter(v[1..], w[1..], key); }
  }

  /** Naming the type of a message whose type is named already changes nothing. */
  lemma NamingTwice(entries: seq<Pair>)
    requires NameType(entries).Some?
    ensures NameType(NameType(entries).value) == NameType(entries)
    ensures |NameType(entries).value| == |entries|
    ensures forall i :: 0 <= i < |entries| ==> NameType(entries).value[i].key == entries[i].key
  {
    var named, t := NameType(entries).value, Find(entries, "type");
    FindAfter(entries, named, "type");
    if t >= 0 && !entries[t].value.NoneValue? {
      NamesAreNames(entries[t].value);
      assert named[t := named[t]] == named;
    }
  }

  lemma ReplacingKeepsName(entries: seq<Pair>, level: Level, i: nat, inner: Value)
    requires NameType(entries) == Some(entries)
    requires i < |entries| && entries[i].key == StrKey(InnerKey(level))
    ensures NameType(entries[i := Pair(StrKey(InnerKey(level)), inner)])
        == Some(entries[i := Pair(StrKey(InnerKey(level)), inner)])
  {
    KeysDiffer(level);
    var w, t := entries[i := Pair(StrKey(InnerKey(level)), inner)], Find(entries, "type");
    FindAfter(entries, w, "type");
    if t >= 0 {
      assert t != i && w[t] == entries[t];
      if !entries[t].value.NoneValue? {
        assert entries[t := Pair(StrKey("type"), Str(NameOf(entries[t].value).value))][t] == entries[t];
      }
      assert w[t := w[t]] == w;
    }
  }

  /** Converting what has been converted changes nothing. */
  lemma {:induction false} ConversionIsIdempotent(level: Level, v: Value)
    requires KeysOnce(v) && Converted(level, v).Some?
    ensures Converted(level, Converted(level, v).value) == Converted(level, v)
    decreases v
  {
    var w := Converted(level, v).value;
    if IsList(level) {
      if v.List? {
        forall i | 0 <= i < |v.items| ensures Converted(InnerLevel(level), w.items[i]) == Some(w.items[i]) {
          assert v.items[i] in v.items;
          ConversionIsIdempotent(InnerLevel(level), v.items[i]);
        }
        AllConverted(level, w.items, w.items);
      }
    } else {
      var named := if level == AMessage then NameType(v.entries).value else v.entries;
      var i := Find(v.entries, InnerKey(level));
      if level == AMessage { NamingTwice(v.entries); }
      FindAfter(v.entries, named, InnerKey(level));
      if i >= 0 && !(level == AMessage && v.entries[i].value.NoneValue?) {
        assert v.entries[i] in v.entries;
        ConversionIsIdempotent(InnerLevel(level), v.entries[i].value);
        var inner := Converted(InnerLevel(level), v.entries[i].value).value;
        ReconvertsAlike(level, named, i, inner);
      } else if i >= 0 {
        KeysDiffer(level);
        assert named[i] == v.entries[i];
      }
    }
  }

  lemma ReconvertsAlike(level: Level, named: seq<Pair>, i: nat, inner: Value)
    requires !IsList(level) && i < |named| && Find(named, InnerKey(level)) == i
    requires level == AMessage ==> NameType(named) == Some(named)
    requires Converted(InnerLevel(level), inner) == Some(inner)
    ensures var w := named[i := Pair(StrKey(InnerKey(level)), inner)]; Converted(level, Dict(w)) == Some(Dict(w))
  {
    var w := named[i := Pair(StrKey(InnerKey(level)), inner)];
    FindAfter(named, w, InnerKey(level));
    if level == AMessage { ReplacingKeepsName(named, level, i, inner); }
    assert w[i := Pair(StrKey(InnerKey(level)), inner)] == w;
  }

  // ---------- The whole of to_dict ----------

  lemma {:induction false} ProjectionKeepsKeysOnce(v: Value)
    requires KeysOnce(v)
    ensures KeysOnce(ToJsonSafe(v))
  {
    match v
    case Dict(entries) => SafeEntriesKeysOnce(entries);
    case List(items) => SafeItemsKeysOnce(items);
    case Tuple(items) => SafeItemsKeysOnce(items);
    case _ =>
  }

  lemma KeysOnceCons(first: Pair, rest: seq<Pair>)
    requires KeysOnce(first.value) && KeysOnce(Dict(rest)) && forall e :: e in rest ==> e.key != first.key
    ensures KeysOnce(Dict([first] + rest))
  {
    var r := [first] + rest;
    forall i, j | 0 <= i < j < |r| ensures r[i].key != r[j].key {
      assert r[j] == rest[j - 1] && r[j] in rest;
    }
  }

  lemma {:induction false} SafeEntriesKeysOnce(entries: seq<Pair>)
    requires forall i, j :: 0 <= i < j < |entries| ==> entries[i].key != entries[j].key
    requires forall e :: e in entries ==> KeysOnce(e.value)
    ensures KeysOnce(Dict(SafeEntries(entries)))
    ensures forall e :: e in SafeEntries(entries) ==> exists i :: 0 <= i < |entries| && entries[i].key == e.key
  {
    if entries == [] {
    } else {
      var first, tail := entries[0], entries[1..];
      assert first in entries && first.value < first && forall e :: e in tail ==> e in entries;
      ProjectionKeepsKeysOnce(first.value);
      SafeEntriesKeysOnce(tail);
      forall e | e in SafeEntries(tail)
          ensures e.key != first.key && exists i :: 0 <= i < |entries| && entries[i].key == e.key {
        var i :| 0 <= i < |tail| && tail[i].key == e.key;
        assert entries[i + 1].key == e.key;
      }
      if first.key.StrKey? {
        KeysOnceCons(Pair(first.key, ToJsonSafe(first.value)), SafeEntries(tail));
      }
    }
  }

  lemma {:induction false} SafeItemsKeysOnce(items: seq<Value>)
    requires forall x :: x in items ==> KeysOnce(x)
    ensures forall x :: x in SafeItems(items) ==> KeysOnce(x)
  {
    if items == [] {
    } else {
      assert items[0] in items && forall x :: x in items[1..] ==> x in items;
      ProjectionKeepsKeysOnce(items[0]);
      SafeItemsKeysOnce(items[1..]);
    }
  }

  // ---------- When conversion raises ----------

  /** A type that conversion leaves or can name. */
  predicate GoodType(v: Value) {
    v.NoneValue? || NameOf(v).Some?
  }

  /** Every message at any depth is a dictionary with a type that has a name, if any, and a context
      that is a dictionary or None, if any; histories and messages are lists of dictionaries, or
      empty. In particular `chat_histories` or `messages` of None are not well-shaped. */
  predicate WellShaped(level: Level, v: Value)
    decreases v
  {
    if IsList(level) then
      match v
      case List(items) => forall x :: x in items ==> WellShaped(InnerLevel(level), x)
      case Str(s) => s == ""
      case Dict(entries) => entries == []
      case _ => false
    else
      && v.Dict?
      && (level == AMessage ==> forall e :: e in v.entries && e.key == StrKey("type") ==> GoodType(e.value))
      && (forall e :: e in v.entries && e.key == StrKey(InnerKey(level)) ==>
            (level == AMessage && e.value.NoneValue?) || WellShaped(InnerLevel(level), e.value))
  }

  lemma FoundOnce(entries: seq<Pair>, key: string, e: Pair)
    requires forall i, j :: 0 <= i < j < |entries| ==> entries[i].key != entries[j].key
    requires e in entries && e.key == StrKey(key)
    ensures Find(entries, key) >= 0 && entries[Find(entries, key)] == e
  {
  }

  lemma {:induction false} ItemsConvertIff(level: Level, items: seq<Value>)
    ensures ConvertedItems(level, items).Some? <==>
            forall i :: 0 <= i < |items| ==> Converted(InnerLevel(level), items[i]).Some?
    decreases items, 0
  {
    if items == [] {
    } else {
      ItemsConvertIff(level, items[1..]);
      assert forall i :: 0 < i < |items| ==> items[i] == items[1..][i - 1];
      assert forall i :: 0 <= i < |items[1..]| ==> items[1..][i] == items[i + 1];
    }
  }

  /** Conversion raises exactly when the value is not well-shaped. */
  lemma {:induction false} ConvertsIffWellShaped(level: Level, v: Value)
    requires KeysOnce(v)
    ensures Converted(level, v).Some? <==> WellShaped(level, v)
    decreases v
  {
    if IsList(level) {
      if v.List? {
        ItemsConvertIff(level, v.items);
        forall i | 0 <= i < |v.items|
          ensures Converted(InnerLevel(level), v.items[i]).Some? <==> WellShaped(InnerLevel(level), v.items[i])
        {
          assert v.items[i] in v.items;
          ConvertsIffWellShaped(InnerLevel(level), v.items[i]);
        }
        ItemsShaped(InnerLevel(level), v.items);
      }
    } else if v.Dict? {
      var i := Find(v.entries, InnerKey(level));
      TypeIsGoodIff(v.entries);
      if i >= 0 {
        assert v.entries[i] in v.entries;
        ConvertsIffWellShaped(InnerLevel(level), v.entries[i].value);
      }
      forall e | e in v.entries && e.key == StrKey(InnerKey(level)) ensures i >= 0 && e == v.entries[i] {
        FoundOnce(v.entries, InnerKey(level), e);
      }
    }
  }

  lemma ItemsShaped(level: Level, items: seq<Value>)
    ensures (forall x :: x in items ==> WellShaped(level, x)) <==>
            forall i :: 0 <= i < |items| ==> WellShaped(level, items[i])
  {
    assert forall i :: 0 <= i < |items| ==> items[i] in items;
  }

  lemma TypeIsGoodIff(entries: seq<Pair>)
    requires forall i, j :: 0 <= i < j < |entries| ==> entries[i].key != entries[j].key
    ensures NameType(entries).Some? <==> forall e :: e in entries && e.key == StrKey("type") ==> GoodType(e.value)
  {
    var t := Find(entries, "type");
    if t >= 0 { assert entries[t] in entries; }
    forall e | e in entries && e.key == StrKey("type") ensures t >= 0 && e == entries[t] {
      FoundOnce(entries, "type", e);
    }
  }

  /** A projected object whose message, if it has one, can be converted. */
  predicate Convertible(safe: Value) {
    safe.Dict? && forall e :: e in safe.entries && e.key == StrKey("response") ==>
      e.value.NoneValue? || WellShaped(AMessage, e.value)
  }

  lemma ResponseIffConvertible(obj: Value)
    requires KeysOnce(obj)
    ensures ResponseOf(ToJsonSafe(obj)).Some? <==> Convertible(ToJsonSafe(obj))
  {
    var safe := ToJsonSafe(obj);
    ProjectionKeepsKeysOnce(obj);
    if safe.Dict? {
      var i := Find(safe.entries, "response");
      if i >= 0 {
        assert safe.entries[i] in safe.entries;
        ConvertsIffWellShaped(AMessage, safe.entries[i].value);
      }
      forall e | e in safe.entries && e.key == StrKey("response") ensures i >= 0 && e == safe.entries[i] {
        FoundOnce(safe.entries, "response", e);
      }
    }
  }

  // ---------- The whole of to_dict as written ----------

  /** The response with the projected one: every type in its message, and in the messages nested
      in its chat contexts, is missing, None or a name; apart from types nothing has changed. */
  predicate Ready(safe: Value, response: Value) {
    if !safe.Dict? then false
    else
      var i := Find(safe.entries, "response");
      && response.Dict? && |response.entries| == |safe.entries|
      && (forall j :: 0 <= j < |safe.entries| && j != i ==> response.entries[j] == safe.entries[j])
      && (i >= 0 ==>
            && response.entries[i].key == StrKey("response")
            && TypesNamed(AMessage, response.entries[i].value)
            && SameButTypes(AMessage, safe.entries[i].value, response.entries[i].value))
  }

  lemma ResponseIsReady(obj: Value)
    requires KeysOnce(obj) && ResponseOf(ToJsonSafe(obj)).Some?
    ensures Ready(ToJsonSafe(obj), ResponseOf(ToJsonSafe(obj)).value)
  {
    var safe := ToJsonSafe(obj);
    var i := Find(safe.entries, "response");
    ProjectionKeepsKeysOnce(obj);
    if i >= 0 {
      var message := safe.entries[i].value;
      assert safe.entries[i] in safe.entries;
      if message.NoneValue? { NothingIsSame(AMessage, message); } else { ConversionNamesTypes(AMessage, message); }
    }
  }

  /** The whole of to_dict: the projection, then the conversion of the "response". It raises exactly
      when the object is no dictionary or its message is not well-shaped; what it returns is ready. */
  method ToDict(obj: Value) returns (r: Option<Value>)
    ensures r == ResponseOf(ToJsonSafe(obj))
    ensures KeysOnce(obj) ==> (r.Some? <==> Convertible(ToJsonSafe(obj)))
    ensures r.Some? && KeysOnce(obj) ==> Ready(ToJsonSafe(obj), r.value)
  {
    if KeysOnce(obj) { ResponseIffConvertible(obj); }
    if KeysOnce(obj) && ResponseOf(ToJsonSafe(obj)).Some? { ResponseIsReady(obj); }
    var response := ToJsonSafe(obj);
    if !response.Dict? {
      return None;
    }
    var i := Find(response.entries, "response");
    if i < 0 || response.entries[i].value.NoneValue? {
      return Some(response);
    }
    var message := ConvertMessage(response.entries[i].value);
    if message.None? {
      return None;
    }
    r := Some(Dict(response.entries[i := Pair(StrKey("response"), message.value)]));
  }
}
