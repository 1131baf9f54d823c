/** The accumulator loop of `streaming_chat` in
    neuro_san/session/async_http_service_agent_session.py: JSON lines put together again from
    chunks that were cut anywhere, in the middle of a line or of a character. */
module LineStream {
  import opened Wrappers
  import opened Utf8

  // ---------- Lines ----------

  /** `s.find(b"\n")` */
  function FindNewline(s: seq<int>): (i: int)
    ensures -1 <= i < |s|
    ensures i >= 0 ==> s[i] == 0x0A && 0x0A !in s[..i]
    ensures i < 0 ==> 0x0A !in s
  {
    if s == [] then -1
    else if s[0] == NEWLINE then 0
    else
      var i := FindNewline(s[1..]);
      assert i >= 0 ==> s[..i + 1] == [s[0]] + s[1..][..i];
      if i < 0 then -1 else i + 1
  }

  /** The lines of `s` that are ended by a newline, without it. */
  function CompleteLines(s: seq<int>): seq<seq<int>>
    decreases |s|
  {
    var i := FindNewline(s);
    if i < 0 then [] else [s[..i]] + CompleteLines(s[i + 1..])
  }

  /** What follows the last newline. */
  function Remainder(s: seq<int>): seq<int>
    decreases |s|
  {
    var i := FindNewline(s);
    if i < 0 then s else Remainder(s[i + 1..])
  }

  function Unlines(lines: seq<seq<int>>, tail: seq<int>): seq<int> {
    if lines == [] then tail else lines[0] + [NEWLINE] + Unlines(lines[1..], tail)
  }

  /** The first line and the rest. */
  lemma CutAtNewline(line: seq<int>, rest: seq<int>)
    requires NEWLINE !in line
    ensures FindNewline(line + [NEWLINE] + rest) == |line|
    ensures CompleteLines(line + [NEWLINE] + rest) == [line] + CompleteLines(rest)
    ensures Remainder(line + [NEWLINE] + rest) == Remainder(rest)
  {
    var s := line + [NEWLINE] + rest;
    var k := FindNewline(s);
    assert s[|line|] == NEWLINE;
    assert forall j :: 0 <= j < |line| ==> s[j] == line[j];
    assert k >= 0 ==> forall j :: 0 <= j < k ==> s[..k][j] == s[j];
    assert s[..|line|] == line && s[|line| + 1..] == rest;
  }

  lemma SplitAtFound(s: seq<int>)
    requires FindNewline(s) >= 0
    ensures s == s[..FindNewline(s)] + [NEWLINE] + s[FindNewline(s) + 1..]
  {
  }

  lemma {:induction false} LinesRebuild(s: seq<int>)
    ensures Unlines(CompleteLines(s), Remainder(s)) == s
    ensures NEWLINE !in Remainder(s) && forall l :: l in CompleteLines(s) ==> NEWLINE !in l
    decreases |s|
  {
    var i := FindNewline(s);
    if i >= 0 {
      LinesRebuild(s[i + 1..]);
      SplitAtFound(s);
    }
  }

  /** Cutting at newlines is the only way to see `s` as newline-free lines. */
  lemma {:induction false} LinesAreUnique(lines: seq<seq<int>>, tail: seq<int>)
    requires NEWLINE !in tail && forall l :: l in lines ==> NEWLINE !in l
    ensures CompleteLines(Unlines(lines, tail)) == lines && Remainder(Unlines(lines, tail)) == tail
  {
    if lines == [] {
    } else {
      assert lines[0] in lines;
      CutAtNewline(lines[0], Unlines(lines[1..], tail));
      LinesAreUnique(lines[1..], tail);
    }
  }

  /** More data only affects what was not a complete line yet. */
  lemma {:induction false} LinesOfMore(s: seq<int>, more: seq<int>)
    ensures CompleteLines(s + more) == CompleteLines(s) + CompleteLines(Remainder(s) + more)
    ensures Remainder(s + more) == Remainder(Remainder(s) + more)
    decreases |s|
  {
    var i := FindNewline(s);
    if i >= 0 {
      var line, rest := s[..i], s[i + 1..];
      SplitAtFound(s);
      Assoc(line + [NEWLINE], rest, more);
      CutAtNewline(line, rest);
      CutAtNewline(line, rest + more);
      LinesOfMore(rest, more);
      Assoc([line], CompleteLines(rest), CompleteLines(Remainder(rest) + more));
    } else {
      assert [] + CompleteLines(s + more) == CompleteLines(s + more);
    }
  }

  // ---------- What is yielded ----------

  /** The characters that `str.strip()` removes. */
  predicate IsSpace(c: int) {
    || 0x09 <= c <= 0x0D || 0x1C <= c <= 0x20 || c == 0x85 || c == 0xA0 || c == 0x1680
    || 0x2000 <= c <= 0x200A || c in {0x2028, 0x2029, 0x202F, 0x205F, 0x3000}
  }

  predicate Blank(text: seq<int>) {
    forall c :: c in text ==> IsSpace(c)
  }

  /** The white space of Python, code point by code point. */
  lemma BlankIff(text: seq<int>)
    ensures Blank(text) <==> forall c :: c in text ==>
        c in {0x09, 0x0A, 0x0B, 0x0C, 0x0D, 0x1C, 0x1D, 0x1E, 0x1F, 0x20, 0x85, 0xA0, 0x1680, 0x2000, 0x2001, 0x2002,
              0x2003, 0x2004, 0x2005, 0x2006, 0x2007, 0x2008, 0x2009, 0x200A, 0x2028, 0x2029, 0x202F, 0x205F, 0x3000}
  {
  }

  /** Dictionaries yielded so far, and whether the generator has raised. */
  datatype Outcome<V> = Outcome(yielded: seq<V>, raised: bool)

  /** One line: decoded, skipped when blank, else parsed. */
  function Deliver<V>(o: Outcome<V>, line: seq<int>, parse: seq<int> -> Option<V>): Outcome<V> {
    var text := Decode(line);
    if o.raised then o
    else if text.None? then o.(raised := true)
    else if Blank(text.value) then o
    else if parse(text.value).None? then o.(raised := true)
    else Outcome(o.yielded + [parse(text.value).value], false)
  }

  function DeliverAll<V>(o: Outcome<V>, lines: seq<seq<int>>, parse: seq<int> -> Option<V>): Outcome<V>
    decreases |lines|
  {
    if lines == [] then o else DeliverAll(Deliver(o, lines[0], parse), lines[1..], parse)
  }

  /** What is left at the end is parsed unless it is empty; here blanks are not skipped. */
  function DeliverTail<V>(o: Outcome<V>, tail: seq<int>, parse: seq<int> -> Option<V>): Outcome<V> {
    if o.raised || tail == [] then o
    else
      var text := Decode(tail);
      if text.None? || parse(text.value).None? then o.(raised := true)
      else Outcome(o.yielded + [parse(text.value).value], false)
  }

  /** The stream as one byte string: its complete lines in order, then the unfinished one. */
  function Stream<V>(bytes: seq<int>, parse: seq<int> -> Option<V>): Outcome<V> {
    DeliverTail(DeliverAll(Outcome([], false), CompleteLines(bytes), parse), Remainder(bytes), parse)
  }

  lemma {:induction false} DeliverMore<V>(o: Outcome<V>, a: seq<seq<int>>, b: seq<seq<int>>,
      parse: seq<int> -> Option<V>)
    ensures DeliverAll(o, a + b, parse) == DeliverAll(DeliverAll(o, a, parse), b, parse)
    decreases |a|
  {
    if a == [] {
      assert a + b == b;
    } else {
      assert (a + b)[1..] == a[1..] + b;
      DeliverMore(Deliver(o, a[0], parse), a[1..], b, parse);
    }
  }

  lemma {:induction false} NothingAfterRaise<V>(o: Outcome<V>, lines: seq<seq<int>>, parse: seq<int> -> Option<V>)
    requires o.raised
    ensures DeliverAll(o, lines, parse) == o
  {
    if lines != [] { NothingAfterRaise(o, lines[1..], parse); }
  }

  // ---------- Which lines are yielded ----------

  function Decoded(lines: seq<seq<int>>): seq<Option<seq<int>>> {
    seq(|lines|, i requires 0 <= i < |lines| => Decode(lines[i]))
  }

  predicate Parses<V>(text: Option<seq<int>>, parse: seq<int> -> Option<V>) {
    text.Some? && parse(text.value).Some?
  }

  /** The first `complete` lines are ended by a newline; of these the blank ones are skipped. */
  predicate Skipped(texts: seq<Option<seq<int>>>, complete: nat, i: nat) {
    i < complete && i < |texts| && texts[i].Some? && Blank(texts[i].value)
  }

  /** The first `n` lines are skipped or yielded, in order, and `at` are the positions of those
      yielded. Line `n`, if there is one, can be neither and raises. */
  ghost predicate YieldedAt<V>(o: Outcome<V>, texts: seq<Option<seq<int>>>, complete: nat, n: nat, at: seq<nat>,
      parse: seq<int> -> Option<V>)
  {
    && n <= |texts| && |at| == |o.yielded| && (forall k, l :: 0 <= k < l < |at| ==> at[k] < at[l])
    && (forall k :: 0 <= k < |at| ==>
          at[k] < n && !Skipped(texts, complete, at[k]) && Parses(texts[at[k]], parse)
          && o.yielded[k] == parse(texts[at[k]].value).value)
    && (forall i: nat :: i < n && !Skipped(texts, complete, i) ==> i in at)
    && (o.raised <==> n < |texts|)
    && (o.raised ==> !Skipped(texts, complete, n) && !Parses(texts[n], parse))
  }

  /** What a further line does: nothing after a raise; else it is skipped, yielded, or raises. */
  ghost predicate Takes<V>(o: Outcome<V>, next: Outcome<V>, last: Option<seq<int>>, skipped: bool,
      parse: seq<int> -> Option<V>)
  {
    if o.raised || skipped then next == o
    else if Parses(last, parse) then next == Outcome(o.yielded + [parse(last.value).value], false)
    else next == Outcome(o.yielded, true)
  }

  lemma SameSoFar<V>(o: Outcome<V>, front: seq<Option<seq<int>>>, last: Option<seq<int>>, complete: nat, n: nat,
      at: seq<nat>, parse: seq<int> -> Option<V>)
    requires YieldedAt(o, front, |front|, n, at, parse) && |front| <= complete
    ensures var all := front + [last];
            && (forall k :: 0 <= k < |at| ==>
                  at[k] < n && !Skipped(all, complete, at[k]) && Parses(all[at[k]], parse)
                  && o.yielded[k] == parse(all[at[k]].value).value)
            && (forall i: nat :: i < n && !Skipped(all, complete, i) ==> i in at)
            && (o.raised ==> !Skipped(all, complete, n) && !Parses(all[n], parse))
  {
    var all := front + [last];
    assert forall i :: 0 <= i < |front| ==> all[i] == front[i];
    assert forall i: nat :: i < |front| ==> (Skipped(all, complete, i) <==> Skipped(front, |front|, i));
  }

  lemma OneMoreLine<V>(o: Outcome<V>, next: Outcome<V>, front: seq<Option<seq<int>>>, last: Option<seq<int>>,
      complete: nat, n: nat, at: seq<nat>, parse: seq<int> -> Option<V>)
      returns (m: nat, at': seq<nat>)
    requires YieldedAt(o, front, |front|, n, at, parse) && |front| <= complete
    requires Takes(o, next, last, Skipped(front + [last], complete, |front|), parse)
    ensures YieldedAt(next, front + [last], complete, m, at', parse)
  {
    var all, k := front + [last], |front|;
    SameSoFar(o, front, last, complete, n, at, parse);
    m, at' := n, at;
    if !o.raised {
      m := if next.raised then k else k + 1;
      if !next.raised && !Skipped(all, complete, k) {
        at' := at + [k];
        forall i: nat | i < m && !Skipped(all, complete, i) ensures i in at' {
          if i == k { assert at'[|at|] == k; } else { assert i in at; }
        }
      }
    }
  }

  lemma {:induction false} DeliveredAt<V>(lines: seq<seq<int>>, parse: seq<int> -> Option<V>)
      returns (n: nat, at: seq<nat>)
    ensures YieldedAt(DeliverAll(Outcome([], false), lines, parse), Decoded(lines), |lines|, n, at, parse)
  {
    if lines == [] {
      n, at := 0, [];
    } else {
      var front, last := lines[..|lines| - 1], lines[|lines| - 1];
      assert lines == front + [last];
      DeliverMore(Outcome([], false), front, [last], parse);
      n, at := DeliveredAt(front, parse);
      var o := DeliverAll(Outcome([], false), front, parse);
      assert DeliverAll(o, [last], parse) == Deliver(o, last, parse);
      assert Decoded(lines) == Decoded(front) + [Decode(last)];
      n, at := OneMoreLine(o, Deliver(o, last, parse), Decoded(front), Decode(last), |lines|, n, at, parse);
    }
  }

  /** All lines of a stream, with the rest after them unless it is empty. */
  function AllLines(bytes: seq<int>): seq<seq<int>> {
    CompleteLines(bytes) + if Remainder(bytes) == [] then [] else [Remainder(bytes)]
  }

  lemma StreamedAt<V>(bytes: seq<int>, parse: seq<int> -> Option<V>) returns (n: nat, at: seq<nat>)
    ensures YieldedAt(Stream(bytes, parse), Decoded(AllLines(bytes)), |CompleteLines(bytes)|, n, at, parse)
  {
    var lines, rest := CompleteLines(bytes), Remainder(bytes);
    n, at := DeliveredAt(lines, parse);
    if rest == [] {
      assert AllLines(bytes) == lines;
    } else {
      var o := DeliverAll(Outcome([], false), lines, parse);
      assert Decoded(AllLines(bytes)) == Decoded(lines) + [Decode(rest)];
      n, at := OneMoreLine(o, DeliverTail(o, rest, parse), Decoded(lines), Decode(rest), |lines|, n, at, parse);
    }
  }

  function Join(chunks: seq<seq<int>>): seq<int> {
    if chunks == [] then [] else Join(chunks[..|chunks| - 1]) + chunks[|chunks| - 1]
  }

  lemma {:induction false} JoinMore(a: seq<seq<int>>, b: seq<seq<int>>)
    ensures Join(a + b) == Join(a) + Join(b)
  {
    if b == [] {
      assert a + b == a;
    } else {
      var front, last := b[..|b| - 1], b[|b| - 1];
      JoinMore(a, front);
      assert (a + b)[..|a + b| - 1] == a + front && (a + b)[|a + b| - 1] == last;
      Assoc(Join(a), Join(front), last);
    }
  }

  /** The chunk loop: its outcome depends on the bytes alone, not on how they were cut. */
  method StreamingChat<V>(chunks: seq<seq<Byte>>, parse: seq<int> -> Option<V>)
    returns (yielded: seq<V>, raised: bool, ghost n: nat, ghost at: seq<nat>)
    ensures Outcome(yielded, raised) == Stream(Join(chunks), parse)
    ensures var bytes := Join(chunks);
            YieldedAt(Outcome(yielded, raised), Decoded(AllLines(bytes)), |CompleteLines(bytes)|, n, at, parse)
  {
    n, at := StreamedAt(Join(chunks), parse);
    yielded, raised := [], false;
    ghost var start: Outcome<V> := Outcome([], false);
    ghost var whole := Join(chunks);
    var accumulator: seq<Byte> := [];
    for n := 0 to |chunks|
      invariant accumulator == Remainder(Join(chunks[..n])) && FindNewline(accumulator) < 0
      invariant DeliverAll(start, CompleteLines(Join(chunks[..n])), parse) == Outcome(yielded, false)
    {
      ghost var received := Join(chunks[..n]);
      ghost var later := Join(chunks[n + 1..]);
      assert chunks[..n + 1][..n] == chunks[..n];
      assert Join(chunks[..n + 1]) == received + chunks[n];
      assert chunks == chunks[..n + 1] + chunks[n + 1..];
      JoinMore(chunks[..n + 1], chunks[n + 1..]);
      LinesOfMore(received, chunks[n]);
      ghost var joined := accumulator + chunks[n];
      ghost var lines := CompleteLines(received + chunks[n]);
      LinesOfMore(received + chunks[n], later);
      DeliverMore(start, CompleteLines(received), CompleteLines(joined), parse);
      DeliverMore(start, lines, CompleteLines(Remainder(received + chunks[n]) + later), parse);

      accumulator := accumulator + chunks[n];
      var index := FindNewline(accumulator);
      while index >= 0
        invariant index == FindNewline(accumulator)
        invariant Remainder(accumulator) == Remainder(received + chunks[n])
        invariant DeliverAll(start, lines, parse)
            == DeliverAll(Outcome(yielded, false), CompleteLines(accumulator), parse)
        decreases |accumulator|
      {
        var line := accumulator[..index];
        ghost var rest := CompleteLines(accumulator[index + 1..]);
        assert CompleteLines(accumulator) == [line] + rest;
        var text := Decode(line);
        if text.None? || (!Blank(text.value) && parse(text.value).None?) {
          NothingAfterRaise(Outcome(yielded, true), rest, parse);
          NothingAfterRaise(Outcome(yielded, true), CompleteLines(Remainder(received + chunks[n]) + later), parse);
          raised := true;
          return;
        }
        if !Blank(text.value) {
          yielded := yielded + [parse(text.value).value];
        }
        accumulator := accumulator[index + 1..];
        index := FindNewline(accumulator);
      }
    }
    assert chunks[..|chunks|] == chunks;
    if |accumulator| > 0 {
      var text := Decode(accumulator);
      if text.None? || parse(text.value).None? {
        raised := true;
        return;
      }
      yielded := yielded + [parse(text.value).value];
    }
  }

  // ---------- Decoding by lines is decoding the stream ----------

  predicate AllValid(lines: seq<seq<int>>) {
    forall l :: l in lines ==> Decode(l).Some?
  }

  function Texts(lines: seq<seq<int>>): seq<seq<int>>
    requires AllValid(lines)
  {
    if lines == [] then [] else [Decode(lines[0]).value] + Texts(lines[1..])
  }

  lemma ValidCons(line: seq<int>, lines: seq<seq<int>>)
    ensures AllValid([line] + lines) <==> Decode(line).Some? && AllValid(lines)
    ensures AllValid([line] + lines) ==> Texts([line] + lines) == [Decode(line).value] + Texts(lines)
  {
    assert ([line] + lines)[1..] == lines;
    assert line in [line] + lines && forall l :: l in lines ==> l in [line] + lines;
  }

  /** The stream is valid UTF-8 exactly when each of its lines and its tail is, and then the lines
      of the decoded stream are the decoded lines: no cut falls inside a character. */
  lemma {:induction false} DecodeByLines(bytes: seq<int>)
    ensures Decode(bytes).Some? <==> AllValid(CompleteLines(bytes)) && Decode(Remainder(bytes)).Some?
    ensures Decode(bytes).Some? ==>
              CompleteLines(Decode(bytes).value) == Texts(CompleteLines(bytes)) &&
                  Remainder(Decode(bytes).value) == Decode(Remainder(bytes)).value
    decreases |bytes|
  {
    var i := FindNewline(bytes);
    if i < 0 {
      if Decode(bytes).Some? { NoNewlineAppears(bytes); }
    } else {
      var a, b := bytes[..i], bytes[i + 1..];
      SplitAtFound(bytes);
      CutAtNewline(a, b);
      DecodeSplitsAtNewline(a, b);
      ValidCons(a, CompleteLines(b));
      DecodeByLines(b);
      if Decode(bytes).Some? {
        NoNewlineAppears(a);
        CutAtNewline(Decode(a).value, Decode(b).value);
      }
    }
  }

  lemma LinesWithFinalNewline(bytes: seq<int>)
    ensures CompleteLines(bytes + [NEWLINE]) == CompleteLines(bytes) + [Remainder(bytes)]
    ensures Remainder(bytes + [NEWLINE]) == []
  {
    var rest := Remainder(bytes);
    LinesRebuild(bytes);
    LinesOfMore(bytes, [NEWLINE]);
    CutAtNewline(rest, []);
    assert rest + [NEWLINE] + [] == rest + [NEWLINE];
    assert CompleteLines([]) == [] && [rest] + [] == [rest];
  }

  /** With a final newline the rest is delivered as one more line. */
  lemma StreamWithFinalNewline<V>(bytes: seq<int>, parse: seq<int> -> Option<V>)
    ensures var o := DeliverAll(Outcome([], false), CompleteLines(bytes), parse);
            Stream(bytes + [NEWLINE], parse) == Deliver(o, Remainder(bytes), parse)
  {
    var rest := Remainder(bytes);
    LinesWithFinalNewline(bytes);
    DeliverMore(Outcome([], false), CompleteLines(bytes), [rest], parse);
    assert [rest][1..] == [];
  }

  /** A line and an unterminated rest are treated alike unless they are blank. */
  lemma BlankTailIsParsed<V>(o: Outcome<V>, rest: seq<int>, parse: seq<int> -> Option<V>)
    ensures DeliverTail(o, rest, parse) != Deliver(o, rest, parse) <==>
            !o.raised && rest != [] && Decode(rest).Some? && Blank(Decode(rest).value)
  {
    if rest == [] { assert Decode(rest) == Some([]); }
  }

  /** Whether the last line is ended by a newline or not makes no difference, except when it is
      blank but not empty: blank lines are skipped, a blank rest is parsed. Exactly then (and when
      nothing before it has raised) a newline at the end of the stream changes the outcome. */
  lemma FinalNewlineMattersIff<V>(bytes: seq<int>, parse: seq<int> -> Option<V>)
    ensures var o := DeliverAll(Outcome([], false), CompleteLines(bytes), parse); var rest := Remainder(bytes);
            Stream(bytes, parse) != Stream(bytes + [NEWLINE], parse) <==>
            !o.raised && rest != [] && Decode(rest).Some? && Blank(Decode(rest).value)
  {
    StreamWithFinalNewline(bytes, parse);
    BlankTailIsParsed(DeliverAll(Outcome([], false), CompleteLines(bytes), parse), Remainder(bytes), parse);
  }
}
