/** UTF-8 as section 4 of RFC 3629 gives its syntax, which is what Python's strict decoder
    accepts, and why it may be decoded one line at a time. */
module Utf8 {
  import opened Wrappers

  type Byte = b: int | 0 <= b < 256

  const NEWLINE := 10

  datatype Char = Char(code: int, size: nat)

  predicate Tail(b: int) {
    0x80 <= b <= 0xBF
  }

  /** The first character of a byte string, if the string starts with a whole one. */
  function FirstChar(s: seq<int>): Option<Char>
    requires s != []
  {
    var a := s[0];
    if 0 <= a <= 0x7F then Some(Char(a, 1))
    else if 0xC2 <= a <= 0xDF && |s| >= 2 && Tail(s[1]) then
      Some(Char((a - 0xC0) * 0x40 + (s[1] - 0x80), 2))
    else if 0xE0 <= a <= 0xEF && |s| >= 3 && Tail(s[1]) && Tail(s[2])
            && (a == 0xE0 ==> s[1] >= 0xA0) && (a == 0xED ==> s[1] <= 0x9F) then
      Some(Char(((a - 0xE0) * 0x40 + (s[1] - 0x80)) * 0x40 + (s[2] - 0x80), 3))
    else if 0xF0 <= a <= 0xF4 && |s| >= 4 && Tail(s[1]) && Tail(s[2]) && Tail(s[3])
            && (a == 0xF0 ==> s[1] >= 0x90) && (a == 0xF4 ==> s[1] <= 0x8F) then
      Some(Char((((a - 0xF0) * 0x40 + (s[1] - 0x80)) * 0x40 + (s[2] - 0x80)) * 0x40 + (s[3] - 0x80), 4))
    else None
  }

  /** `s.decode("utf-8")`: the code points, or None when it raises. */
  function Decode(s: seq<int>): Option<seq<int>>
    decreases |s|
  {
    if s == [] then Some([])
    else
      var first := FirstChar(s);
      if first.None? then None
      else
        var rest := Decode(s[first.value.size..]);
        if rest.None? then None else Some([first.value.code] + rest.value)
  }

  /** A newline byte neither continues a character nor is needed by one: the character in front
      of it is the same with and without it. */
  lemma FirstCharStopsAtNewline(a: seq<int>, b: seq<int>)
    requires a != []
    ensures FirstChar(a + [NEWLINE] + b) == FirstChar(a)
    ensures FirstChar(a).Some? ==> FirstChar(a).value.size <= |a|
  {
    var s := a + [NEWLINE] + b;
    assert s[|a|] == NEWLINE && !Tail(NEWLINE);
    assert forall i :: 0 <= i < |a| ==> s[i] == a[i];
  }

  lemma AssocAround(x: seq<int>, a: seq<int>, b: seq<int>, c: seq<int>)
    ensures x + (a + b + c) == (x + a) + b + c
  {
    Assoc(x, a + b, c);
    Assoc(x, a, b);
  }

  lemma DropInFirst(a: seq<int>, b: seq<int>, c: seq<int>, k: nat)
    requires k <= |a|
    ensures (a + b + c)[k..] == a[k..] + b + c
  {
    assert (a + b + c)[k..] == (a + b)[k..] + c && (a + b)[k..] == a[k..] + b;
  }

  /** Decoding a text cut at a newline byte is decoding the parts: either all of it is valid, or
      some part is not. */
  lemma {:induction false} DecodeSplitsAtNewline(a: seq<int>, b: seq<int>)
    ensures Decode(a + [NEWLINE] + b) ==
            if Decode(a).Some? && Decode(b).Some? then Some(Decode(a).value + [NEWLINE] + Decode(b).value) else None
    decreases |a|
  {
    var s := a + [NEWLINE] + b;
    if a == [] {
      assert s[0] == NEWLINE && s[1..] == b;
      assert Decode([]) == Some([]);
      assert Decode(b).Some? ==> [NEWLINE] + Decode(b).value == [] + [NEWLINE] + Decode(b).value;
    } else {
      FirstCharStopsAtNewline(a, b);
      var first := FirstChar(a);
      if first.Some? {
        var k := first.value.size;
        DropInFirst(a, [NEWLINE], b, k);
        DecodeSplitsAtNewline(a[k..], b);
        if Decode(a[k..]).Some? && Decode(b).Some? {
          AssocAround([first.value.code], Decode(a[k..]).value, [NEWLINE], Decode(b).value);
        }
      }
    }
  }

  /** Only a newline byte decodes to a newline. */
  lemma {:induction false} NoNewlineAppears(s: seq<int>)
    requires NEWLINE !in s && Decode(s).Some?
    ensures NEWLINE !in Decode(s).value
    decreases |s|
  {
    if s == [] {
    } else {
      var first := FirstChar(s).value;
      assert s[0] in s;
      assert forall x :: x in s[first.size..] ==> x in s;
      NoNewlineAppears(s[first.size..]);
      assert first.code != NEWLINE;
    }
  }

  // ---------- The decoder against the encoder ----------

  /** A code point that UTF-8 may encode: up to U+10FFFF and not a surrogate. */
  predicate Scalar(c: int) {
    0 <= c <= 0x10FFFF && !(0xD800 <= c <= 0xDFFF)
  }

  /** Section 3 of RFC 3629, by ranges of code points: six bits to a continuation byte. */
  function EncodeChar(c: int): seq<int>
    requires Scalar(c)
  {
    var p := c / 0x40;
    var q := p / 0x40;
    var r := q / 0x40;
    if c < 0x80 then [c]
    else if c < 0x800 then [0xC0 + p, 0x80 + c % 0x40]
    else if c < 0x10000 then [0xE0 + q, 0x80 + p % 0x40, 0x80 + c % 0x40]
    else [0xF0 + r, 0x80 + q % 0x40, 0x80 + p % 0x40, 0x80 + c % 0x40]
  }

  function Encode(text: seq<int>): seq<int>
    requires forall c :: c in text ==> Scalar(c)
  {
    if text == [] then [] else EncodeChar(text[0]) + Encode(text[1..])
  }

  lemma SixBits(high: int, low: int)
    requires 0 <= low < 0x40
    ensures (high * 0x40 + low) / 0x40 == high && (high * 0x40 + low) % 0x40 == low
  {
  }

  lemma FirstOfTwo(p: int, z: int, rest: seq<int>)
    requires 2 <= p < 0x20 && 0 <= z < 0x40
    ensures FirstChar([0xC0 + p, 0x80 + z] + rest) == Some(Char(p * 0x40 + z, 2))
  {
    var s := [0xC0 + p, 0x80 + z] + rest;
    assert s[0] == 0xC0 + p && s[1] == 0x80 + z;
  }

  lemma FirstOfThree(q: int, y: int, z: int, rest: seq<int>)
    requires 0 <= q < 0x10 && 0 <= y < 0x40 && 0 <= z < 0x40
    requires (q == 0 ==> y >= 0x20) && (q == 0xD ==> y < 0x20)
    ensures FirstChar([0xE0 + q, 0x80 + y, 0x80 + z] + rest) == Some(Char((q * 0x40 + y) * 0x40 + z, 3))
  {
    var s := [0xE0 + q, 0x80 + y, 0x80 + z] + rest;
    assert s[0] == 0xE0 + q && s[1] == 0x80 + y && s[2] == 0x80 + z;
  }

  lemma FirstOfFour(r: int, x: int, y: int, z: int, rest: seq<int>)
    requires 0 <= r <= 4 && 0 <= x < 0x40 && 0 <= y < 0x40 && 0 <= z < 0x40
    requires (r == 0 ==> x >= 0x10) && (r == 4 ==> x < 0x10)
    ensures FirstChar([0xF0 + r, 0x80 + x, 0x80 + y, 0x80 + z] + rest)
        == Some(Char(((r * 0x40 + x) * 0x40 + y) * 0x40 + z, 4))
  {
    var s := [0xF0 + r, 0x80 + x, 0x80 + y, 0x80 + z] + rest;
    assert s[0] == 0xF0 + r && s[1] == 0x80 + x && s[2] == 0x80 + y && s[3] == 0x80 + z;
  }

  lemma EncodedCharIsFirst(c: int, rest: seq<int>)
    requires Scalar(c)
    ensures FirstChar(EncodeChar(c) + rest) == Some(Char(c, |EncodeChar(c)|))
  {
    var p, z := c / 0x40, c % 0x40;
    var q, y := p / 0x40, p % 0x40;
    var r, x := q / 0x40, q % 0x40;
    assert c == p * 0x40 + z && p == q * 0x40 + y && q == r * 0x40 + x;
    if c < 0x80 {
      assert ([c] + rest)[0] == c;
    } else if c < 0x800 {
      FirstOfTwo(p, z, rest);
    } else if c < 0x10000 {
      FirstOfThree(q, y, z, rest);
    } else {
      FirstOfFour(r, x, y, z, rest);
    }
  }

  /** A code point is decoded from its bits as the table in section 3 of RFC 3629 spreads them. */
  lemma CharacterByBits(c: int)
    ensures 0 <= c <= 0x7F ==> Decode([c]) == Some([c])
    ensures 0x80 <= c <= 0x7FF ==> Decode([0xC0 + c / 0x40, 0x80 + c % 0x40]) == Some([c])
    ensures 0x800 <= c <= 0xD7FF || 0xE000 <= c <= 0xFFFF ==>
        Decode([0xE0 + c / 0x40 / 0x40, 0x80 + c / 0x40 % 0x40, 0x80 + c % 0x40]) == Some([c])
    ensures 0x10000 <= c <= 0x10FFFF ==>
              Decode([0xF0 + c / 0x40 / 0x40 / 0x40, 0x80 + c / 0x40 / 0x40 % 0x40, 0x80 + c / 0x40 % 0x40,
                      0x80 + c % 0x40]) == Some([c])
  {
    if Scalar(c) {
      var s := EncodeChar(c);
      EncodedCharIsFirst(c, []);
      assert s + [] == s && s[|s|..] == [] && [c] + [] == [c];
      assert Decode(s) == Some([c]);
    }
  }

  lemma EncodesTwo(p: int, z: int)
    requires 2 <= p < 0x20 && 0 <= z < 0x40
    ensures Scalar(p * 0x40 + z) && EncodeChar(p * 0x40 + z) == [0xC0 + p, 0x80 + z]
  {
    SixBits(p, z);
  }

  lemma EncodesThree(q: int, y: int, z: int)
    requires 0 <= q < 0x10 && 0 <= y < 0x40 && 0 <= z < 0x40
    requires (q == 0 ==> y >= 0x20) && (q == 0xD ==> y < 0x20)
    ensures var c := (q * 0x40 + y) * 0x40 + z; Scalar(c) && EncodeChar(c) == [0xE0 + q, 0x80 + y, 0x80 + z]
  {
    SixBits(q * 0x40 + y, z);
    SixBits(q, y);
  }

  lemma EncodesFour(r: int, x: int, y: int, z: int)
    requires 0 <= r <= 4 && 0 <= x < 0x40 && 0 <= y < 0x40 && 0 <= z < 0x40
    requires (r == 0 ==> x >= 0x10) && (r == 4 ==> x < 0x10)
    ensures var c := ((r * 0x40 + x) * 0x40 + y) * 0x40 + z;
            Scalar(c) && EncodeChar(c) == [0xF0 + r, 0x80 + x, 0x80 + y, 0x80 + z]
  {
    SixBits((r * 0x40 + x) * 0x40 + y, z);
    SixBits(r * 0x40 + x, y);
    SixBits(r, x);
  }

  lemma FirstCharIsEncoded(s: seq<int>)
    requires s != [] && FirstChar(s).Some?
    ensures Scalar(FirstChar(s).value.code)
    ensures 1 <= FirstChar(s).value.size <= |s| && s[..FirstChar(s).value.size] == EncodeChar(FirstChar(s).value.code)
  {
    var n := FirstChar(s).value.size;
    if n == 2 {
      EncodesTwo(s[0] - 0xC0, s[1] - 0x80);
    } else if n == 3 {
      EncodesThree(s[0] - 0xE0, s[1] - 0x80, s[2] - 0x80);
    } else if n == 4 {
      EncodesFour(s[0] - 0xF0, s[1] - 0x80, s[2] - 0x80, s[3] - 0x80);
    }
  }

  /** A whole character in front of a valid text is decoded on its own. */
  lemma DecodeChar(c: int, rest: seq<int>)
    requires Scalar(c) && Decode(rest).Some?
    ensures Decode(EncodeChar(c) + rest) == Some([c] + Decode(rest).value)
  {
    var e := EncodeChar(c);
    EncodedCharIsFirst(c, rest);
    assert (e + rest)[|e|..] == rest;
  }

  /** Decoding undoes encoding. */
  lemma {:induction false} DecodeEncode(text: seq<int>)
    requires forall c :: c in text ==> Scalar(c)
    ensures Decode(Encode(text)) == Some(text)
  {
    if text == [] {
    } else {
      var c, rest := text[0], text[1..];
      assert text == [c] + rest && c in text && forall x :: x in rest ==> x in text;
      DecodeEncode(rest);
      DecodeChar(c, Encode(rest));
    }
  }

  lemma EncodeCons(c: int, text: seq<int>)
    requires Scalar(c) && forall x :: x in text ==> Scalar(x)
    ensures (forall x :: x in [c] + text ==> Scalar(x)) && Encode([c] + text) == EncodeChar(c) + Encode(text)
  {
    assert ([c] + text)[1..] == text;
  }

  /** A valid byte string is the encoding of one character and a shorter valid byte string. */
  lemma DecodeStep(s: seq<int>) returns (c: int, rest: seq<int>)
    requires s != [] && Decode(s).Some?
    ensures Scalar(c) && s == EncodeChar(c) + rest && |rest| < |s|
    ensures Decode(rest).Some? && Decode(s).value == [c] + Decode(rest).value
  {
    FirstCharIsEncoded(s);
    var first := FirstChar(s).value;
    c, rest := first.code, s[first.size..];
    assert s == s[..first.size] + rest;
  }

  /** And only encodings are decoded: the bytes are the one encoding of what they decode to. */
  lemma {:induction false} EncodeDecode(s: seq<int>)
    requires Decode(s).Some?
    ensures forall c :: c in Decode(s).value ==> Scalar(c) && (0 <= c <= 0xD7FF || 0xE000 <= c <= 0x10FFFF)
    ensures Encode(Decode(s).value) == s
    decreases |s|
  {
    if s == [] {
    } else {
      var c, rest := DecodeStep(s);
      EncodeDecode(rest);
      EncodeCons(c, Decode(rest).value);
    }
  }
}
