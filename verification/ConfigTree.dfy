/** The JSON-like values of an agent network config, and substitution at their string leaves. */
module ConfigTree {
  import opened Wrappers

  /** Number stands for every value that is neither a string nor a container: numbers and truth
      values. A dictionary is the sequence of its entries in insertion order. */
  datatype Value = Null | Number(n: int) | Str(s: string) | Dict(entries: seq<Entry>) | List(items: seq<Value>)

  datatype Entry = Entry(key: string, value: Value)

  /** `d.get(key)`, as None when the key is missing. */
  function Lookup(d: seq<Entry>, key: string): Option<Value> {
    if d == [] then None
    else if d[0].key == key then Some(d[0].value)
    else Lookup(d[1..], key)
  }

  /** `d[key] = value`: an existing key keeps its place, a new one goes last. */
  function Put(d: seq<Entry>, key: string, value: Value): seq<Entry> {
    if d == [] then [Entry(key, value)]
    else if d[0].key == key then [Entry(key, value)] + d[1..]
    else [d[0]] + Put(d[1..], key, value)
  }

  /** `d.update(more)` */
  function Update(d: seq<Entry>, more: seq<Entry>): seq<Entry>
    decreases |more|
  {
    if more == [] then d else Update(Put(d, more[0].key, more[0].value), more[1..])
  }

  lemma {:induction false} LookupPut(d: seq<Entry>, key: string, value: Value, k: string)
    ensures Lookup(Put(d, key, value), k) == if k == key then Some(value) else Lookup(d, k)
  {
    if d != [] && d[0].key != key {
      LookupPut(d[1..], key, value, k);
    }
  }

  function Keys(d: seq<Entry>): seq<string> {
    if d == [] then [] else [d[0].key] + Keys(d[1..])
  }

  lemma {:induction false} PutKeys(d: seq<Entry>, key: string, value: Value)
    ensures Keys(Put(d, key, value)) == if key in Keys(d) then Keys(d) else Keys(d) + [key]
  {
    if d == [] {
    } else if d[0].key != key {
      PutKeys(d[1..], key, value);
      Assoc([d[0].key], Keys(d[1..]), [key]);
    }
  }

  lemma {:induction false} KnownKeysStay(d: seq<Entry>, more: seq<Entry>)
    ensures Keys(d) <= Keys(Update(d, more))
    decreases |more|
  {
    if more != [] {
      PutKeys(d, more[0].key, more[0].value);
      KnownKeysStay(Put(d, more[0].key, more[0].value), more[1..]);
    }
  }

  /** Updating keeps the keys that were there in their places and adds new ones after them, in
      their own order. */
  lemma {:induction false} NewKeysFollow(d: seq<Entry>, more: seq<Entry>)
    requires forall k :: k in Keys(more) ==> k !in Keys(d)
    requires forall i, j :: 0 <= i < j < |Keys(more)| ==> Keys(more)[i] != Keys(more)[j]
    ensures Keys(Update(d, more)) == Keys(d) + Keys(more)
    decreases |more|
  {
    if more == [] {
      assert Keys(d) + [] == Keys(d);
    } else {
      var first, rest := more[0], Keys(more[1..]);
      assert Keys(more) == [first.key] + rest && Keys(more)[0] == first.key;
      PutKeys(d, first.key, first.value);
      forall k | k in rest ensures k in Keys(more) && k != first.key {
        var j :| 0 <= j < |rest| && rest[j] == k;
        assert Keys(more)[j + 1] == k;
      }
      assert forall j :: 0 <= j < |rest| ==> Keys(more)[j + 1] == rest[j];
      NewKeysFollow(Put(d, first.key, first.value), more[1..]);
      Assoc(Keys(d), [first.key], rest);
    }
  }

  lemma {:induction false} PutSame(d: seq<Entry>, key: string, value: Value)
    requires Lookup(d, key) == Some(value)
    ensures Put(d, key, value) == d
  {
    if d[0].key != key {
      PutSame(d[1..], key, value);
    }
  }

  // ---------- Substitution at the string leaves ----------

  function MapLeaves(v: Value, f: string -> Value): Value {
    match v
    case Str(s) => f(s)
    case Dict(entries) => Dict(MapEntries(entries, f))
    case List(items) => List(MapItems(items, f))
    case _ => v
  }

  function MapEntries(d: seq<Entry>, f: string -> Value): (r: seq<Entry>)
    ensures |r| == |d| && forall i :: 0 <= i < |d| ==> r[i] == Entry(d[i].key, MapLeaves(d[i].value, f))
  {
    if d == [] then [] else [Entry(d[0].key, MapLeaves(d[0].value, f))] + MapEntries(d[1..], f)
  }

  function MapItems(xs: seq<Value>, f: string -> Value): (r: seq<Value>)
    ensures |r| == |xs| && forall i :: 0 <= i < |xs| ==> r[i] == MapLeaves(xs[i], f)
  {
    if xs == [] then [] else [MapLeaves(xs[0], f)] + MapItems(xs[1..], f)
  }

  /** The text `s` is a string leaf of `v`. Keys are not leaves. */
  predicate Mentions(v: Value, s: string) {
    match v
    case Str(t) => t == s
    case Dict(entries) => exists i :: 0 <= i < |entries| && Mentions(entries[i].value, s)
    case List(items) => exists i :: 0 <= i < |items| && Mentions(items[i], s)
    case _ => false
  }

  /** Substituting twice is substituting once with the second substitution applied to what the
      first one puts in, for every nesting of dictionaries and lists. */
  lemma {:induction false} MapLeavesCompose(v: Value, f: string -> Value, g: string -> Value, h: string -> Value)
    requires forall s :: Mentions(v, s) ==> h(s) == MapLeaves(f(s), g)
    ensures MapLeaves(MapLeaves(v, f), g) == MapLeaves(v, h)
  {
    match v
    case Str(s) => assert Mentions(v, s);
    case Dict(entries) =>
      forall i | 0 <= i < |entries|
        ensures MapLeaves(MapLeaves(entries[i].value, f), g) == MapLeaves(entries[i].value, h)
      {
        assert forall s :: Mentions(entries[i].value, s) ==> Mentions(v, s);
        MapLeavesCompose(entries[i].value, f, g, h);
      }
      assert MapEntries(MapEntries(entries, f), g) == MapEntries(entries, h);
    case List(items) =>
      forall i | 0 <= i < |items|
        ensures MapLeaves(MapLeaves(items[i], f), g) == MapLeaves(items[i], h)
      {
        assert forall s :: Mentions(items[i], s) ==> Mentions(v, s);
        MapLeavesCompose(items[i], f, g, h);
      }
      assert MapItems(MapItems(items, f), g) == MapItems(items, h);
    case _ =>
  }

  /** The leaves after a substitution are the leaves of what was put in. */
  lemma {:induction false} LeavesAfterMap(v: Value, f: string -> Value, l: string)
    ensures Mentions(MapLeaves(v, f), l) <==> exists s :: Mentions(v, s) && Mentions(f(s), l)
  {
    match v
    case Str(s) => assert Mentions(v, s);
    case Dict(entries) =>
      var r := MapEntries(entries, f);
      if Mentions(Dict(r), l) {
        var i :| 0 <= i < |r| && Mentions(r[i].value, l);
        LeavesAfterMap(entries[i].value, f, l);
        var s :| Mentions(entries[i].value, s) && Mentions(f(s), l);
        assert Mentions(v, s);
      }
      if s :| Mentions(v, s) && Mentions(f(s), l) {
        var i :| 0 <= i < |entries| && Mentions(entries[i].value, s);
        LeavesAfterMap(entries[i].value, f, l);
        assert Mentions(r[i].value, l);
      }
    case List(items) =>
      var r := MapItems(items, f);
      if Mentions(List(r), l) {
        var i :| 0 <= i < |r| && Mentions(r[i], l);
        LeavesAfterMap(items[i], f, l);
        var s :| Mentions(items[i], s) && Mentions(f(s), l);
        assert Mentions(v, s);
      }
      if s :| Mentions(v, s) && Mentions(f(s), l) {
        var i :| 0 <= i < |items| && Mentions(items[i], s);
        LeavesAfterMap(items[i], f, l);
        assert Mentions(r[i], l);
      }
    case _ =>
  }

  /** A substitution leaves a value alone exactly when it leaves each of its leaves alone. */
  lemma {:induction false} MapLeavesFixes(v: Value, f: string -> Value)
    ensures MapLeaves(v, f) == v <==> forall s :: Mentions(v, s) ==> f(s) == Str(s)
  {
    match v
    case Str(s) => assert Mentions(v, s);
    case Dict(entries) =>
      var r := MapEntries(entries, f);
      forall i | 0 <= i < |entries| { MapLeavesFixes(entries[i].value, f); }
      if r == entries {
        forall s | Mentions(v, s) ensures f(s) == Str(s) {
          var i :| 0 <= i < |entries| && Mentions(entries[i].value, s);
          assert r[i].value == entries[i].value;
        }
      }
      if forall s :: Mentions(v, s) ==> f(s) == Str(s) {
        forall i | 0 <= i < |entries| ensures r[i] == entries[i] {
          assert forall s :: Mentions(entries[i].value, s) ==> Mentions(v, s);
        }
      }
    case List(items) =>
      var r := MapItems(items, f);
      forall i | 0 <= i < |items| { MapLeavesFixes(items[i], f); }
      if r == items {
        forall s | Mentions(v, s) ensures f(s) == Str(s) {
          var i :| 0 <= i < |items| && Mentions(items[i], s);
          assert r[i] == items[i];
        }
      }
      if forall s :: Mentions(v, s) ==> f(s) == Str(s) {
        forall i | 0 <= i < |items| ensures r[i] == items[i] {
          assert forall s :: Mentions(items[i], s) ==> Mentions(v, s);
        }
      }
    case _ =>
  }

  lemma {:induction false} LookupMapped(d: seq<Entry>, f: string -> Value, key: string)
    ensures Lookup(MapEntries(d, f), key) ==
            match Lookup(d, key)
            case None => None
            case Some(v) => Some(MapLeaves(v, f))
  {
    if d != [] && d[0].key != key {
      LookupMapped(d[1..], f, key);
      assert MapEntries(d, f)[1..] == MapEntries(d[1..], f);
    }
  }
}
