/** neuro_san/internals/messages/origination.py

    Numbering the uses of each agent, and rendering a path of uses as one name. */
module Origination {
  import opened Wrappers
  import opened Text

  /** One element of an origin path. */
  datatype Component = Component(tool: string, index: int)

  const INSTANTIATION_START := 1
  const NUM_INSTANTIATION_INDEX_DIGITS := 2

  // ---------- Numbering ----------

  function Count(uses: seq<string>, name: string): nat {
    if uses == [] then 0
    else Count(uses[..|uses| - 1], name) + if uses[|uses| - 1] == name then 1 else 0
  }

  /** The component that the i-th use is given: it is use number `index` of its own name. */
  function Issued(uses: seq<string>, i: nat): Component
    requires i < |uses|
  {
    Component(uses[i], Count(uses[..i], uses[i]) + 1)
  }

  lemma {:induction false} CountGrows(uses: seq<string>, name: string, i: nat, j: nat)
    requires i <= j <= |uses|
    ensures Count(uses[..i], name) <= Count(uses[..j], name)
    ensures i < j && uses[i] == name ==> Count(uses[..i], name) < Count(uses[..j], name)
    decreases j - i
  {
    if i < j {
      assert uses[..i + 1][..i] == uses[..i];
      CountGrows(uses, name, i + 1, j);
    }
  }

  /** No component is ever issued twice. */
  lemma NoComponentRepeats(uses: seq<string>, i: nat, j: nat)
    requires i < j < |uses|
    ensures Issued(uses, i) != Issued(uses, j)
  {
    CountGrows(uses, uses[i], i, j);
  }

  /** The k-th use of a name gets the index k, for every k up to the number of its uses. */
  lemma {:induction false} EveryIndexIsIssued(uses: seq<string>, name: string, k: int) returns (i: nat)
    requires 1 <= k <= Count(uses, name)
    ensures i < |uses| && Issued(uses, i) == Component(name, k)
  {
    var last := |uses| - 1;
    if uses[last] == name && k == Count(uses, name) {
      i := last;
    } else {
      i := EveryIndexIsIssued(uses[..last], name, k);
      assert uses[..last][..i] == uses[..i];
    }
  }

  class Origination {
    var toolToIndexMap: map<string, int>
    ghost var uses: seq<string>  // the names used since the last reset

    constructor ()
      ensures Valid() && uses == []
    {
      toolToIndexMap := map[];
      uses := [];
    }

    /** The map holds the next index of every name used so far. */
    ghost predicate Valid()
      reads this
    {
      forall n :: (if n in toolToIndexMap then toolToIndexMap[n] else INSTANTIATION_START) == Count(uses, n) + 1
    }

    method AddSpecNameToOrigin(origin: Option<seq<Component>>, agentName: Option<string>)
        returns (newOrigin: seq<Component>)
      requires Valid()
      modifies this
      ensures Valid()
      ensures origin.None? || agentName.None? ==> newOrigin == [] && uses == old(uses)
      ensures origin.Some? && agentName.Some? ==>
                uses == old(uses) + [agentName.value] && newOrigin == origin.value + [Issued(uses, |uses| - 1)]
    {
      newOrigin := [];
      if origin.None? || agentName.None? {
        return;
      }
      newOrigin := origin.value;
      var name := agentName.value;
      var instantiationIndex := if name in toolToIndexMap then toolToIndexMap[name] else INSTANTIATION_START;
      toolToIndexMap := toolToIndexMap[name := instantiationIndex + 1];
      newOrigin := newOrigin + [Component(name, instantiationIndex)];
      ghost var before := uses;
      uses := uses + [name];
      assert uses[..|uses| - 1] == before;
    }

    method Reset()
      modifies this
      ensures Valid() && uses == []
    {
      toolToIndexMap := map[];
      uses := [];
    }
  }

  // ---------- Decimal numerals ----------

  function Digit(d: nat): char
    requires d < 10
  {
    "0123456789"[d]
  }

  /** `str(n)` */
  function Decimal(n: nat): string {
    if n < 10 then [Digit(n)] else Decimal(n / 10) + [Digit(n % 10)]
  }

  /** `s.zfill(width)` for a numeral without a sign. */
  function ZFill(s: string, width: nat): string {
    if |s| >= width then s else Repeat('0', width - |s|) + s
  }

  function DigitValue(c: char): nat {
    if '0' <= c <= '9' then c as int - '0' as int else 0
  }

  function NumeralValue(s: string): nat {
    if s == "" then 0 else 10 * NumeralValue(s[..|s| - 1]) + DigitValue(s[|s| - 1])
  }

  predicate IsNumeral(s: string) {
    forall c :: c in s ==> '0' <= c <= '9'
  }

  lemma {:induction false} DecimalReadsBack(n: nat)
    ensures NumeralValue(Decimal(n)) == n && IsNumeral(Decimal(n)) && Decimal(n) != ""
  {
    if n < 10 {
      assert Decimal(n)[..0] == "";
    } else {
      DecimalReadsBack(n / 10);
      var s := Decimal(n);
      assert s[..|s| - 1] == Decimal(n / 10);
    }
  }

  lemma {:induction false} LeadingZeros(k: nat, s: string)
    ensures NumeralValue(Repeat('0', k) + s) == NumeralValue(s)
    decreases k + |s|
  {
    var t := Repeat('0', k) + s;
    if s == "" {
      assert t == Repeat('0', k);
      if k > 0 {
        assert t[..k - 1] == Repeat('0', k - 1) + s;
        LeadingZeros(k - 1, s);
      }
    } else {
      assert t[..|t| - 1] == Repeat('0', k) + s[..|s| - 1];
      LeadingZeros(k, s[..|s| - 1]);
    }
  }

  function IndexText(index: nat): string {
    ZFill(Decimal(index), NUM_INSTANTIATION_INDEX_DIGITS)
  }

  /** Padding loses nothing: the index can be read back. */
  lemma IndexReadsBack(index: nat)
    ensures NumeralValue(IndexText(index)) == index && IsNumeral(IndexText(index)) && IndexText(index) != ""
  {
    DecimalReadsBack(index);
    LeadingZeros(2, Decimal(index));
    LeadingZeros(1, Decimal(index));
  }

  // ---------- Rendering ----------

  function IndexSuffix(index: int): string {
    if index > INSTANTIATION_START then "-" + IndexText(index) else ""
  }

  function RenderOne(c: Component): string {
    c.tool + IndexSuffix(c.index)
  }

  function JoinDots(parts: seq<string>): string {
    if parts == [] then "" else if |parts| == 1 then parts[0] else parts[0] + "." + JoinDots(parts[1..])
  }

  function RenderParts(origin: seq<Component>, safe: string -> string): (r: seq<string>)
    ensures |r| == |origin| && forall i :: 0 <= i < |origin| ==>
        r[i] == RenderOne(Component(safe(origin[i].tool), origin[i].index))
  {
    if origin == [] then []
    else
      var last := origin[|origin| - 1];
      RenderParts(origin[..|origin| - 1], safe) + [RenderOne(Component(safe(last.tool), last.index))]
  }

  function FullName(origin: seq<Component>, safe: string -> string): string {
    ReplaceAll(JoinDots(RenderParts(origin, safe)), "./", "/")
  }

  /** An origin dictionary as it comes: both keys may be missing. */
  datatype OriginDict = OriginDict(tool: Option<string>, index: Option<int>)

  function AsComponent(d: OriginDict): Component
    requires d.tool.Some?
  {
    Component(d.tool.value, if d.index.Some? then d.index.value else INSTANTIATION_START)
  }

  predicate AllNamed(origin: seq<OriginDict>) {
    forall i :: 0 <= i < |origin| ==> origin[i].tool.Some?
  }

  function AsComponents(origin: seq<OriginDict>): (r: seq<Component>)
    requires AllNamed(origin)
    ensures |r| == |origin| && forall i :: 0 <= i < |origin| ==>
        r[i].tool == origin[i].tool.value && r[i].index == if origin[i].index.Some? then origin[i].index.value else 1
  {
    seq(|origin|, i requires 0 <= i < |origin| => AsComponent(origin[i]))
  }

  lemma AsComponentsSnoc(front: seq<OriginDict>, d: OriginDict)
    requires AllNamed(front) && d.tool.Some?
    ensures AllNamed(front + [d]) && AsComponents(front + [d]) == AsComponents(front) + [AsComponent(d)]
  {
  }

  /** The rendering loop. A dictionary without a tool raises; `safe` is
      ExternalAgentParsing.get_safe_agent_name. */
  method GetFullNameFromOrigin(origin: Option<seq<OriginDict>>, safe: string -> string)
      returns (r: Result<Option<string>, ()>)
    ensures origin.None? ==> r == Success(None)
    ensures origin.Some? ==> (r.Success? <==> AllNamed(origin.value))
    ensures origin.Some? && r.Success? ==> r.value == Some(FullName(AsComponents(origin.value), safe))
  {
    if origin.None? {
      return Success(None);
    }
    var dicts := origin.value;
    var originList: seq<string> := [];
    ghost var components: seq<Component> := [];
    for i := 0 to |dicts|
      invariant AllNamed(dicts[..i]) && components == AsComponents(dicts[..i])
      invariant originList == RenderParts(components, safe)
    {
      var originDict := dicts[i];
      var instantiationIndex := if originDict.index.Some? then originDict.index.value else INSTANTIATION_START;
      if originDict.tool.None? {
        return Failure(());
      }
      var indexStr := "";
      if instantiationIndex > INSTANTIATION_START {
        indexStr := "-" + ZFill(Decimal(instantiationIndex), NUM_INSTANTIATION_INDEX_DIGITS);
      }
      assert dicts[..i + 1] == dicts[..i] + [originDict];
      AsComponentsSnoc(dicts[..i], originDict);
      RenderPartsSnoc(components, AsComponent(originDict), safe);
      components := components + [AsComponent(originDict)];
      originList := originList + [safe(originDict.tool.value) + indexStr];
    }
    assert dicts[..|dicts|] == dicts;
    var fullPath := JoinDots(originList);
    r := Success(Some(ReplaceAll(fullPath, "./", "/")));
  }

  lemma RenderPartsSnoc(origin: seq<Component>, c: Component, safe: string -> string)
    ensures RenderParts(origin + [c], safe) == RenderParts(origin, safe) + [RenderOne(Component(safe(c.tool), c.index))]
  {
    assert (origin + [c])[..|origin|] == origin;
  }

  // ---------- Local external agents ----------

  /** Parts joined with dots, but with nothing before a part that starts with a slash. */
  function JoinPath(parts: seq<string>): string {
    if parts == [] then "" else if |parts| == 1 then parts[0]
    else parts[0] + (if "/" <= parts[1] then "" else ".") + JoinPath(parts[1..])
  }

  /** Text without a dot is copied. */
  lemma {:induction false} DotFreeIsCopied(part: string, rest: string)
    requires '.' !in part
    ensures ReplaceAll(part + rest, "./", "/") == part + ReplaceAll(rest, "./", "/")
  {
    if part == "" {
      assert part + rest == rest;
    } else {
      var s := part + rest;
      assert s[0] == part[0] && part[0] in part && s[1..] == part[1..] + rest;
      ReplaceSkip(s, "./", "/");
      DotFreeIsCopied(part[1..], rest);
      assert [part[0]] + (part[1..] + ReplaceAll(rest, "./", "/")) == part + ReplaceAll(rest, "./", "/");
    }
  }

  lemma DotBefore(rest: string)
    ensures ReplaceAll("." + rest, "./", "/") == (if "/" <= rest then "" else ".") + ReplaceAll(rest, "./", "/")
  {
    if "/" <= rest {
      assert "." + rest == "./" + rest[1..] && rest == "/" + rest[1..];
      ReplaceHit("./", rest[1..], "/");
      DotFreeIsCopied("/", rest[1..]);
    } else {
      var s := "." + rest;
      assert s[1..] == rest && "./"[1] == '/' && (rest != "" ==> s[1] == rest[0] && (rest[0] == '/' ==> "/" <= rest));
      ReplaceSkip(s, "./", "/");
    }
  }

  lemma StartOfJoined(parts: seq<string>)
    requires parts != []
    ensures "/" <= JoinDots(parts) <==> "/" <= parts[0]
  {
    if |parts| > 1 {
      var joined := JoinDots(parts);
      assert joined == parts[0] + ("." + JoinDots(parts[1..]));
      assert joined[0] == if parts[0] == "" then '.' else parts[0][0];
    }
  }

  lemma PartThenRest(part: string, rest: string)
    requires '.' !in part
    ensures ReplaceAll(part + "." + rest, "./", "/")
         == part + (if "/" <= rest then "" else ".") + ReplaceAll(rest, "./", "/")
  {
    assert part + "." + rest == part + ("." + rest);
    DotFreeIsCopied(part, "." + rest);
    DotBefore(rest);
  }

  /** A local external agent, whose name starts with a slash, is joined to its caller without a
      dot; every other tool with one. */
  lemma {:induction false} SlashedPartsJoin(parts: seq<string>)
    requires forall p :: p in parts ==> '.' !in p
    ensures ReplaceAll(JoinDots(parts), "./", "/") == JoinPath(parts)
  {
    if parts == [] {
    } else {
      assert parts[0] in parts && forall p :: p in parts[1..] ==> p in parts;
      if |parts| == 1 {
        DotFreeIsCopied(parts[0], "");
        assert parts[0] + "" == parts[0];
      } else {
        PartThenRest(parts[0], JoinDots(parts[1..]));
        StartOfJoined(parts[1..]);
        SlashedPartsJoin(parts[1..]);
      }
    }
  }

  lemma FullNameJoins(origin: seq<Component>, safe: string -> string)
    requires forall c :: c in origin ==> '.' !in safe(c.tool)
    ensures FullName(origin, safe) == JoinPath(RenderParts(origin, safe))
  {
    var parts := RenderParts(origin, safe);
    forall p | p in parts ensures '.' !in p {
      var i :| 0 <= i < |parts| && parts[i] == p;
      assert origin[i] in origin;
      if origin[i].index > 1 {
        IndexReadsBack(origin[i].index);
        NumeralHasNoDash(IndexText(origin[i].index));
      }
    }
    SlashedPartsJoin(parts);
  }

  // ---------- When two paths get the same name ----------

  /** A name that other agents can be told from: not empty, no "." and no "/". */
  predicate PlainTool(tool: string) {
    tool != "" && '.' !in tool && '/' !in tool
  }

  predicate PlainOrigin(origin: seq<Component>) {
    forall c :: c in origin ==> PlainTool(c.tool) && c.index >= INSTANTIATION_START
  }

  /** `b` is a first use of a tool whose own name ends the way a later use of `a.tool` is rendered. */
  predicate Shadows(a: Component, b: Component) {
    a.index > INSTANTIATION_START && b.index == INSTANTIATION_START && b.tool == a.tool + "-" + IndexText(a.index)
  }

  predicate SameRendering(a: Component, b: Component) {
    a == b || Shadows(a, b) || Shadows(b, a)
  }

  lemma NumeralHasNoDash(s: string)
    requires IsNumeral(s)
    ensures '-' !in s && '.' !in s && '/' !in s
  {
  }

  lemma {:induction false} LastDash(a: string, s: string, b: string, t: string)
    requires a + "-" + s == b + "-" + t && '-' !in s && '-' !in t
    ensures a == b && s == t
  {
    var x := a + "-" + s;
    var y := b + "-" + t;
    assert x[|a|] == '-' && y[|b|] == '-';
    assert forall i :: |a| < i < |x| ==> x[i] == s[i - |a| - 1];
    assert forall i :: |b| < i < |y| ==> y[i] == t[i - |b| - 1];
    assert |a| == |b|;
    assert x[..|a|] == a && y[..|b|] == b && x[|a| + 1..] == s && y[|b| + 1..] == t;
  }

  /** Exactly when two uses are rendered alike. */
  lemma RenderOneIff(a: Component, b: Component)
    requires a.index >= INSTANTIATION_START && b.index >= INSTANTIATION_START
    ensures RenderOne(a) == RenderOne(b) <==> SameRendering(a, b)
  {
    IndexReadsBack(a.index);
    IndexReadsBack(b.index);
    NumeralHasNoDash(IndexText(a.index));
    NumeralHasNoDash(IndexText(b.index));
    assert a.tool + "" == a.tool && b.tool + "" == b.tool;
    assert a.tool + ("-" + IndexText(a.index)) == a.tool + "-" + IndexText(a.index);
    assert b.tool + ("-" + IndexText(b.index)) == b.tool + "-" + IndexText(b.index);
    if a.index > 1 && b.index > 1 && RenderOne(a) == RenderOne(b) {
      LastDash(a.tool, IndexText(a.index), b.tool, IndexText(b.index));
    }
  }

  lemma RenderedIsPlain(c: Component)
    requires PlainTool(c.tool) && c.index >= INSTANTIATION_START
    ensures PlainTool(RenderOne(c))
  {
    IndexReadsBack(c.index);
    NumeralHasNoDash(IndexText(c.index));
  }

  lemma FirstDot(a: string, s: string, b: string, t: string)
    requires '.' !in a && '.' !in b && a + "." + s == b + "." + t
    ensures a == b && s == t
  {
    var x := a + "." + s;
    var y := b + "." + t;
    assert x[|a|] == '.' && y[|b|] == '.';
    assert forall i :: 0 <= i < |a| ==> x[i] == a[i];
    assert forall i :: 0 <= i < |b| ==> y[i] == b[i];
    assert |a| == |b|;
    assert x[..|a|] == a && y[..|b|] == b && x[|a| + 1..] == s && y[|b| + 1..] == t;
  }

  lemma DotInside(a: string, s: string)
    ensures '.' in a + "." + s
  {
    assert (a + "." + s)[|a|] == '.';
  }

  lemma {:induction false} JoinIsInjective(xs: seq<string>, ys: seq<string>)
    requires forall x :: x in xs ==> x != "" && '.' !in x
    requires forall y :: y in ys ==> y != "" && '.' !in y
    ensures JoinDots(xs) == JoinDots(ys) <==> xs == ys
  {
    if xs != [] { assert xs[0] in xs; }
    if ys != [] { assert ys[0] in ys; }
    if |xs| > 1 { DotInside(xs[0], JoinDots(xs[1..])); }
    if |ys| > 1 { DotInside(ys[0], JoinDots(ys[1..])); }
    if |xs| > 1 && |ys| > 1 {
      assert (forall x :: x in xs[1..] ==> x in xs) && (forall y :: y in ys[1..] ==> y in ys);
      JoinIsInjective(xs[1..], ys[1..]);
      if JoinDots(xs) == JoinDots(ys) {
        FirstDot(xs[0], JoinDots(xs[1..]), ys[0], JoinDots(ys[1..]));
        assert xs == [xs[0]] + xs[1..] && ys == [ys[0]] + ys[1..];
      }
    }
  }

  lemma {:induction false} JoinHasNoSlash(xs: seq<string>)
    requires forall x :: x in xs ==> '/' !in x
    ensures '/' !in JoinDots(xs)
  {
    if xs == [] {
    } else {
      assert xs[0] in xs;
      JoinHasNoSlash(xs[1..]);
    }
  }

  lemma {:induction false} NoSlashNoMatch(s: string)
    requires '/' !in s
    ensures !Contains(s, "./")
  {
    assert "./"[1] == '/' && (|s| > 1 ==> s[1] in s);
    if s != "" {
      assert forall c :: c in s[1..] ==> c in s;
      NoSlashNoMatch(s[1..]);
    }
  }

  ghost predicate KeepsPlainNames(safe: string -> string) {
    forall t :: PlainTool(t) ==> safe(t) == t
  }

  lemma PlainFullName(origin: seq<Component>, safe: string -> string)
    requires PlainOrigin(origin) && KeepsPlainNames(safe)
    ensures FullName(origin, safe) == JoinDots(RenderParts(origin, safe))
    ensures forall i :: 0 <= i < |origin| ==>
        RenderParts(origin, safe)[i] == RenderOne(origin[i]) && PlainTool(RenderOne(origin[i]))
  {
    var parts := RenderParts(origin, safe);
    forall i | 0 <= i < |origin| ensures parts[i] == RenderOne(origin[i]) && PlainTool(parts[i]) {
      assert origin[i] in origin;
      RenderedIsPlain(origin[i]);
    }
    JoinHasNoSlash(parts);
    NoSlashNoMatch(JoinDots(parts));
    ReplaceAbsent(JoinDots(parts), "./", "/");
  }

  /** Two paths over plain tool names have the same full name exactly when they have the same
      length and each pair of uses is equal or one shadows the other. */
  lemma FullNameIff(o: seq<Component>, o': seq<Component>, safe: string -> string)
    requires PlainOrigin(o) && PlainOrigin(o') && KeepsPlainNames(safe)
    ensures FullName(o, safe) == FullName(o', safe) <==>
            |o| == |o'| && forall i :: 0 <= i < |o| ==> SameRendering(o[i], o'[i])
  {
    PlainFullName(o, safe);
    PlainFullName(o', safe);
    var xs, ys := RenderParts(o, safe), RenderParts(o', safe);
    JoinIsInjective(xs, ys);
    if |o| == |o'| {
      forall i | 0 <= i < |o| ensures xs[i] == ys[i] <==> SameRendering(o[i], o'[i]) {
        assert o[i] in o && o'[i] in o';
        RenderOneIff(o[i], o'[i]);
      }
      if forall i :: 0 <= i < |o| ==> SameRendering(o[i], o'[i]) { assert xs == ys; }
    }
  }

  lemma ShadowedHasDash(a: Component, b: Component)
    ensures Shadows(a, b) ==> '-' in b.tool
  {
    if Shadows(a, b) { assert b.tool[|a.tool|] == '-'; }
  }

  /** Without dashes in tool names the full name identifies the path. */
  lemma FullNameIsInjective(o: seq<Component>, o': seq<Component>, safe: string -> string)
    requires PlainOrigin(o) && PlainOrigin(o') && KeepsPlainNames(safe)
    requires forall c :: c in o || c in o' ==> '-' !in c.tool
    ensures FullName(o, safe) == FullName(o', safe) <==> o == o'
  {
    FullNameIff(o, o', safe);
    if FullName(o, safe) == FullName(o', safe) {
      forall i | 0 <= i < |o| ensures o[i] == o'[i] {
        assert SameRendering(o[i], o'[i]) && o[i] in o && o'[i] in o';
        ShadowedHasDash(o[i], o'[i]);
        ShadowedHasDash(o'[i], o[i]);
      }
    }
  }

  /** With dashes it may not: the second use of "a" and the first use of "a-02". */
  lemma DashedNameCollides(safe: string -> string)
    requires KeepsPlainNames(safe)
    ensures Issued(["a", "a", "a-02"], 1) != Issued(["a", "a", "a-02"], 2)
    ensures FullName([Issued(["a", "a", "a-02"], 1)], safe) == FullName([Issued(["a", "a", "a-02"], 2)], safe)
  {
    var uses := ["a", "a", "a-02"];
    assert uses[..1] == ["a"] && uses[..2] == ["a", "a"] && ["a"][..0] == [] && ["a", "a"][..1] == ["a"];
    assert Count(["a"], "a") == 1 && Count(["a"], "a-02") == 0 && Count(["a", "a"], "a-02") == 0;
    var second, other := Component("a", 2), Component("a-02", 1);
    assert Issued(uses, 1) == second && Issued(uses, 2) == other;
    assert IndexText(2) == Repeat('0', 1) + "2" == "02";
    assert Shadows(second, other);
    FullNameIff([second], [other], safe);
  }
}
