/**
 * UTF-16 text, its UTF-8 encoding (RFC 3629 section 3), and the incremental UTF-8 decoder behind
 * `joinStdio`: a state machine that holds the bytes of an unfinished sequence and replaces every
 * maximal ill-formed subpart by U+FFFD (section 3.9 of the Unicode Standard).
 */
module Utf {

  type Byte = x: int | 0 <= x < 0x100
  type Unit = x: int | 0 <= x < 0x1_0000
  type Scalar = x: int | 0 <= x < 0xD800 || 0xE000 <= x < 0x11_0000

  const REPLACEMENT: Unit := 0xFFFD

  // ----- UTF-16 -----

  predicate High(u: Unit) {
    0xD800 <= u < 0xDC00
  }

  predicate Low(u: Unit) {
    0xDC00 <= u < 0xE000
  }

  /** Unit `i` stands for itself: it is no surrogate, or half of a proper pair. */
  predicate Sound(s: seq<Unit>, i: nat)
    requires i < |s|
  {
    || (!High(s[i]) && !Low(s[i]))
    || (High(s[i]) && i + 1 < |s| && Low(s[i + 1]))
    || (Low(s[i]) && 0 < i && High(s[i - 1]))
  }

  predicate WellFormed(s: seq<Unit>) {
    forall i :: 0 <= i < |s| ==> Sound(s, i)
  }

  /** `s` with every lone surrogate replaced, as UTF-8 encoding followed by decoding leaves it. */
  function Sanitize(s: seq<Unit>): (r: seq<Unit>)
    ensures |r| == |s|
    ensures WellFormed(s) ==> r == s
  {
    seq(|s|, i requires 0 <= i < |s| => if Sound(s, i) then s[i] else REPLACEMENT)
  }

  /** A cut between `a` and `b` that falls inside a surrogate pair. */
  predicate SplitsPair(a: seq<Unit>, b: seq<Unit>) {
    a != [] && b != [] && High(a[|a| - 1]) && Low(b[0])
  }

  lemma SanitizeConcat(a: seq<Unit>, b: seq<Unit>)
    requires !SplitsPair(a, b)
    ensures Sanitize(a + b) == Sanitize(a) + Sanitize(b)
  {
    forall i | 0 <= i < |a + b|
      ensures Sanitize(a + b)[i] == (Sanitize(a) + Sanitize(b))[i]
    {
      SoundInConcat(a, b, i);
    }
  }

  lemma SoundInConcat(a: seq<Unit>, b: seq<Unit>, i: nat)
    requires !SplitsPair(a, b) && i < |a + b|
    ensures Sound(a + b, i) <==> if i < |a| then Sound(a, i) else Sound(b, i - |a|)
  {
    var s := a + b;
    if i < |a| {
      assert s[i] == a[i] && (i + 1 < |s| ==> s[i + 1] == if i + 1 < |a| then a[i + 1] else b[0]);
    } else {
      assert s[i] == b[i - |a|] && (0 < i ==> s[i - 1] == if i == |a| then a[i - 1] else b[i - 1 - |a|]);
    }
  }

  /** All but the last unit of a piece come out the same whatever follows the piece. */
  lemma SanitizePrefix(a: seq<Unit>, b: seq<Unit>)
    requires a != [] && a <= b
    ensures Sanitize(a)[..|a| - 1] == Sanitize(b)[..|a| - 1]
  {
  }

  lemma WellFormedConcat(a: seq<Unit>, b: seq<Unit>)
    requires WellFormed(a) && WellFormed(b)
    ensures WellFormed(a + b)
  {
    forall i | 0 <= i < |a + b|
      ensures Sound(a + b, i)
    {
      assert if i < |a| then Sound(a, i) else Sound(b, i - |a|);
    }
  }

  /** Section 2.1 of RFC 2781. */
  function Units(c: Scalar): (r: seq<Unit>)
    ensures 1 <= |r| <= 2 && WellFormed(r)
  {
    if c < 0x1_0000 then [c]
    else [0xD800 + (c - 0x1_0000) / 0x400, 0xDC00 + (c - 0x1_0000) % 0x400]
  }

  /** Section 2.2 of RFC 2781. */
  function PairScalar(h: Unit, l: Unit): (c: Scalar)
    requires High(h) && Low(l)
    ensures Units(c) == [h, l]
  {
    0x1_0000 + (h - 0xD800) * 0x400 + (l - 0xDC00)
  }

  // ----- UTF-8 -----

  /** Section 3 of RFC 3629. */
  function EncodeScalar(c: Scalar): (r: seq<Byte>)
    ensures 1 <= |r| <= 4
  {
    if c < 0x80 then [c]
    else if c < 0x800 then [0xC0 + c / 0x40, 0x80 + c % 0x40]
    else if c < 0x1_0000 then [0xE0 + c / 0x40 / 0x40, 0x80 + c / 0x40 % 0x40, 0x80 + c % 0x40]
    else [0xF0 + c / 0x40 / 0x40 / 0x40, 0x80 + c / 0x40 / 0x40 % 0x40, 0x80 + c / 0x40 % 0x40, 0x80 + c % 0x40]
  }

  /** A string's UTF-8 bytes; a lone surrogate encodes as U+FFFD. */
  function Encode(s: seq<Unit>): seq<Byte> {
    if s == [] then []
    else if High(s[0]) && |s| > 1 && Low(s[1]) then EncodeScalar(PairScalar(s[0], s[1])) + Encode(s[2..])
    else EncodeScalar(if High(s[0]) || Low(s[0]) then REPLACEMENT else s[0]) + Encode(s[1..])
  }

  /** How many bytes a sequence led by `b` has; 0 when `b` leads none (section 4 of RFC 3629). */
  function Need(b: Byte): nat {
    if b < 0x80 then 1
    else if 0xC2 <= b < 0xE0 then 2
    else if 0xE0 <= b < 0xF0 then 3
    else if 0xF0 <= b < 0xF5 then 4
    else 0
  }

  predicate Tail(b: Byte) {
    0x80 <= b < 0xC0
  }

  predicate SecondOk(b0: Byte, b1: Byte) {
    Tail(b1)
    && (b0 == 0xE0 ==> 0xA0 <= b1)
    && (b0 == 0xED ==> b1 < 0xA0)
    && (b0 == 0xF0 ==> 0x90 <= b1)
    && (b0 == 0xF4 ==> b1 < 0x90)
  }

  /** `p` begins, or is, a well-formed sequence. */
  predicate PrefixOk(p: seq<Byte>) {
    1 <= |p| <= Need(p[0])
    && (|p| > 1 ==> SecondOk(p[0], p[1]))
    && (|p| > 2 ==> Tail(p[2]))
    && (|p| > 3 ==> Tail(p[3]))
  }

  predicate Complete(p: seq<Byte>) {
    PrefixOk(p) && |p| == Need(p[0])
  }

  predicate Partial(p: seq<Byte>) {
    PrefixOk(p) && |p| < Need(p[0])
  }

  /** Appends the six bits of a trailing byte. */
  function Append(q: nat, b: Byte): (c: nat)
    requires Tail(b)
    ensures c / 0x40 == q && c % 0x40 == b - 0x80
  {
    q * 0x40 + (b - 0x80)
  }

  function Value(p: seq<Byte>): (c: Scalar)
    requires Complete(p)
    ensures EncodeScalar(c) == p
  {
    var lead: int := p[0];
    if |p| == 1 then lead
    else if |p| == 2 then Append(lead - 0xC0, p[1])
    else if |p| == 3 then Append(Append(lead - 0xE0, p[1]), p[2])
    else Append(Append(Append(lead - 0xF0, p[1]), p[2]), p[3])
  }

  lemma ValueOfEncoding(c: Scalar)
    ensures Complete(EncodeScalar(c)) && Value(EncodeScalar(c)) == c
  {
  }

  /** A sequence that `p` begins. */
  function Finish(p: seq<Byte>): (r: seq<Byte>)
    requires PrefixOk(p)
    ensures Complete(r) && p <= r
    decreases Need(p[0]) - |p|
  {
    if |p| == Need(p[0]) then p
    else if |p| == 1 then Finish(p + [if p[0] == 0xE0 then 0xA0 else if p[0] == 0xF0 then 0x90 else 0x80])
    else Finish(p + [0x80])
  }

  lemma PrefixOkClosed(p: seq<Byte>, n: nat)
    requires 1 <= n <= |p|
    ensures PrefixOk(p) ==> PrefixOk(p[..n])
  {
  }

  /** The byte table of section 4 of RFC 3629 describes exactly the prefixes of encodings. */
  lemma PrefixOkIffEncodes(p: seq<Byte>)
    ensures PrefixOk(p) <==> p != [] && exists c: Scalar :: p <= EncodeScalar(c)
  {
    hide EncodeScalar, Value, SecondOk, Need;
    if PrefixOk(p) {
      assert p <= EncodeScalar(Value(Finish(p)));
    }
    if p != [] && exists c: Scalar :: p <= EncodeScalar(c) {
      var c: Scalar :| p <= EncodeScalar(c);
      ValueOfEncoding(c);
      assert p == EncodeScalar(c)[..|p|];
      PrefixOkClosed(EncodeScalar(c), |p|);
    }
  }

  // ----- The incremental decoder -----

  /** Bytes held back until their sequence is finished. */
  type Held = p: seq<Byte> | p == [] || Partial(p) witness []

  datatype Decoded = Decoded(held: Held, text: seq<Unit>)

  function DecodeByte(held: Held, b: Byte): Decoded
    decreases |held|
  {
    var p := held + [b];
    if Complete(p) then Decoded([], Units(Value(p)))
    else if Partial(p) then Decoded(p, [])
    else if held == [] then Decoded([], [REPLACEMENT])
    else
      var d := DecodeByte([], b);
      Decoded(d.held, [REPLACEMENT] + d.text)
  }

  function DecodeBytes(held: Held, bytes: seq<Byte>): Decoded
    decreases |bytes|
  {
    if bytes == [] then Decoded(held, [])
    else
      var d := DecodeByte(held, bytes[0]);
      var e := DecodeBytes(d.held, bytes[1..]);
      Decoded(e.held, d.text + e.text)
  }

  lemma DecodeBytesStep(held: Held, bytes: seq<Byte>, i: nat)
    requires i < |bytes|
    ensures var d := DecodeByte(held, bytes[i]);
            var e := DecodeBytes(d.held, bytes[i + 1..]);
            DecodeBytes(held, bytes[i..]) == Decoded(e.held, d.text + e.text)
  {
    hide DecodeByte;
    assert bytes[i..][1..] == bytes[i + 1..];
  }

  /** What ending the stream adds: one U+FFFD for an unfinished sequence. */
  function Flush(held: Held): (r: seq<Unit>)
    ensures |r| <= 1 && WellFormed(r)
  {
    if held == [] then [] else [REPLACEMENT]
  }

  /** Decoding to the end of the stream. */
  function DecodeAll(held: Held, bytes: seq<Byte>): seq<Unit> {
    var d := DecodeBytes(held, bytes);
    d.text + Flush(d.held)
  }

  function Decode(bytes: seq<Byte>): seq<Unit> {
    DecodeAll([], bytes)
  }

  lemma {:induction false} DecodeBytesConcat(held: Held, a: seq<Byte>, b: seq<Byte>)
    ensures var d := DecodeBytes(held, a);
            var e := DecodeBytes(d.held, b);
            DecodeBytes(held, a + b) == Decoded(e.held, d.text + e.text)
    decreases |a|
  {
    hide DecodeByte;
    if a == [] {
      assert a + b == b;
      var e := DecodeBytes(held, b);
      assert [] + e.text == e.text;
    } else {
      assert (a + b)[0] == a[0] && (a + b)[1..] == a[1..] + b;
      var d := DecodeByte(held, a[0]);
      DecodeBytesConcat(d.held, a[1..], b);
      var f := DecodeBytes(d.held, a[1..]);
      var e := DecodeBytes(f.held, b);
      assert d.text + (f.text + e.text) == (d.text + f.text) + e.text;
    }
  }

  /** Decoding more only appends, and emits at most one unit a byte beyond what was held. */
  lemma {:induction false} DecodeBytesBounds(held: Held, bytes: seq<Byte>)
    ensures var d := DecodeBytes(held, bytes);
            WellFormed(d.text) && |d.text| + |Flush(d.held)| <= |bytes| + |Flush(held)|
    decreases |bytes|
  {
    if bytes != [] {
      var d := DecodeByte(held, bytes[0]);
      DecodeBytesBounds(d.held, bytes[1..]);
      DecodeByteBounds(held, bytes[0]);
      WellFormedConcat(d.text, DecodeBytes(d.held, bytes[1..]).text);
    }
  }

  lemma DecodeByteBounds(held: Held, b: Byte)
    ensures var d := DecodeByte(held, b);
            WellFormed(d.text) && |d.text| + |Flush(d.held)| <= 1 + |Flush(held)|
  {
    var first := DecodeByte([], b);
    assert WellFormed(first.text);
    WellFormedConcat([REPLACEMENT], first.text);
  }

  // ----- The decoder against a definition without state -----

  /** The longest prefix that begins a well-formed sequence, or a single byte that begins none. */
  ghost predicate IsMaximalSubpart(s: seq<Byte>, n: nat) {
    1 <= n <= |s|
    && (n == 1 || PrefixOk(s[..n]))
    && forall m: nat :: n < m <= |s| ==> !PrefixOk(s[..m])
  }

  /** What a subpart decodes to. */
  function Subpart(p: seq<Byte>): seq<Unit> {
    if Complete(p) then Units(Value(p)) else [REPLACEMENT]
  }

  /** `text` decodes `s` subpart by subpart, in the manner of section 3.9 of the Unicode Standard. */
  ghost predicate DecodesTo(s: seq<Byte>, text: seq<Unit>)
    decreases |s|
  {
    if s == [] then text == []
    else
      exists n: nat :: IsMaximalSubpart(s, n) && (
        var head := Subpart(s[..n]);
        head <= text && DecodesTo(s[n..], text[|head|..]))
  }

  lemma DecodesToStep(s: seq<Byte>, n: nat, head: seq<Unit>, tail: seq<Unit>)
    requires IsMaximalSubpart(s, n)
    requires head == Subpart(s[..n])
    requires DecodesTo(s[n..], tail)
    ensures DecodesTo(s, head + tail)
  {
    var text := head + tail;
    assert head <= text && text[|head|..] == tail;
  }

  /** A finished sequence, or a byte that begins none, is a maximal subpart whatever follows. */
  lemma FinishedIsMaximal(p: seq<Byte>, rest: seq<Byte>)
    requires Complete(p) || (|p| == 1 && !PrefixOk(p))
    ensures IsMaximalSubpart(p + rest, |p|)
  {
    var s := p + rest;
    assert s[..|p|] == p;
    forall m: nat | |p| < m <= |s|
      ensures !PrefixOk(s[..m])
    {
      assert s[..m][..|p|] == p && s[..m][0] == p[0];
    }
  }

  /** A held prefix that the next byte cannot extend is a maximal subpart. */
  lemma BrokenIsMaximal(held: Held, rest: seq<Byte>)
    requires held != [] && rest != [] && !PrefixOk(held + [rest[0]])
    ensures IsMaximalSubpart(held + rest, |held|)
  {
    hide Value, SecondOk, Need;
    var s := held + rest;
    assert s[..|held|] == held;
    forall m: nat | |held| < m <= |s|
      ensures !PrefixOk(s[..m])
    {
      PrefixOkClosed(s[..m], |held| + 1);
      assert s[..m][..|held| + 1] == held + [rest[0]];
    }
  }

  lemma EndSound(held: Held)
    ensures DecodesTo(held, Flush(held))
  {
    hide Value, Units, EncodeScalar, SecondOk, Need;
    if held != [] {
      assert held[..|held|] == held && held[|held|..] == [];
      DecodesToStep(held, |held|, [REPLACEMENT], []);
      assert [REPLACEMENT] + [] == Flush(held);
    }
  }

  lemma DecodeAllStep(held: Held, bytes: seq<Byte>)
    requires bytes != []
    ensures var d := DecodeByte(held, bytes[0]);
            DecodeAll(held, bytes) == d.text + DecodeAll(d.held, bytes[1..])
  {
    hide DecodeByte;
    var d := DecodeByte(held, bytes[0]);
    var e := DecodeBytes(d.held, bytes[1..]);
    assert (d.text + e.text) + Flush(e.held) == d.text + (e.text + Flush(e.held));
  }

  /** A byte that finishes a sequence, or begins none, is decoded at once as its own subpart. */
  lemma FinishStep(held: Held, b: Byte)
    requires Complete(held + [b]) || (held == [] && !Partial(held + [b]))
    ensures DecodeByte(held, b) == Decoded([], Subpart(held + [b]))
    ensures Complete(held + [b]) || (|held + [b]| == 1 && !PrefixOk(held + [b]))
  {
    hide Value, Units, EncodeScalar, SecondOk, Tail;
  }

  lemma FinishSound(held: Held, bytes: seq<Byte>)
    requires bytes != [] && (Complete(held + [bytes[0]]) || (held == [] && !Partial(held + [bytes[0]])))
    requires DecodesTo(bytes[1..], Decode(bytes[1..]))
    ensures DecodesTo(held + bytes, DecodeAll(held, bytes))
  {
    hide DecodeByte, Subpart, Complete, Partial, PrefixOk, DecodesTo, IsMaximalSubpart, DecodeAll;
    var p, rest := held + [bytes[0]], bytes[1..];
    assert held + bytes == p + rest;
    assert (p + rest)[..|p|] == p && (p + rest)[|p|..] == rest;
    FinishStep(held, bytes[0]);
    FinishedIsMaximal(p, rest);
    DecodeAllStep(held, bytes);
    DecodesToStep(p + rest, |p|, Subpart(p), Decode(rest));
  }

  /** A byte that breaks a held sequence leaves one U+FFFD for it and is decoded afresh. */
  lemma BreakSound(held: Held, bytes: seq<Byte>)
    requires held != [] && bytes != []
    requires !Complete(held + [bytes[0]]) && !Partial(held + [bytes[0]])
    requires DecodesTo(bytes, Decode(bytes))
    ensures DecodesTo(held + bytes, DecodeAll(held, bytes))
  {
    hide Value, Units, EncodeScalar, SecondOk, Need, DecodesTo, IsMaximalSubpart, DecodeAll;
    var s := held + bytes;
    assert s[..|held|] == held && s[|held|..] == bytes;
    BrokenIsMaximal(held, bytes);
    DecodeAllStep(held, bytes);
    DecodeAllStep([], bytes);
    assert DecodeAll(held, bytes) == [REPLACEMENT] + Decode(bytes);
    DecodesToStep(s, |held|, [REPLACEMENT], Decode(bytes));
  }

  /** Holding bytes back changes nothing: the machine decodes held and fresh bytes as one string. */
  lemma {:induction false} DecoderSound(held: Held, bytes: seq<Byte>)
    ensures DecodesTo(held + bytes, DecodeAll(held, bytes))
    decreases |bytes|, |held|
  {
    hide Value, Units, EncodeScalar, PrefixOk, DecodesTo, DecodeAll;
    if bytes == [] {
      EndSound(held);
      assert held + bytes == held && DecodeAll(held, []) == Flush(held) by { DecodeAllNothing(held); }
    } else {
      var p := held + [bytes[0]];
      if Partial(p) {
        DecoderSound(p, bytes[1..]);
        DecodeAllStep(held, bytes);
        assert held + bytes == p + bytes[1..];
        assert [] + DecodeAll(p, bytes[1..]) == DecodeAll(p, bytes[1..]);
      } else if Complete(p) || held == [] {
        DecoderSound([], bytes[1..]);
        assert [] + bytes[1..] == bytes[1..];
        FinishSound(held, bytes);
      } else {
        DecoderSound([], bytes);
        assert [] + bytes == bytes;
        BreakSound(held, bytes);
      }
    }
  }

  lemma DecodeAllNothing(held: Held)
    ensures DecodeAll(held, []) == Flush(held)
  {
    assert [] + Flush(held) == Flush(held);
  }

  lemma MaximalSubpartUnique(s: seq<Byte>, m: nat, n: nat)
    requires IsMaximalSubpart(s, m) && IsMaximalSubpart(s, n)
    ensures m == n
  {
  }

  lemma {:induction false} DecodesToUnique(s: seq<Byte>, a: seq<Unit>, b: seq<Unit>)
    requires DecodesTo(s, a) && DecodesTo(s, b)
    ensures a == b
    decreases |s|
  {
    hide Subpart, PrefixOk;
    if s != [] {
      var n: nat :| IsMaximalSubpart(s, n) && (
        var head := Subpart(s[..n]);
        head <= a && DecodesTo(s[n..], a[|head|..]));
      var m: nat :| IsMaximalSubpart(s, m) && (
        var head := Subpart(s[..m]);
        head <= b && DecodesTo(s[m..], b[|head|..]));
      MaximalSubpartUnique(s, m, n);
      var head := Subpart(s[..n]);
      DecodesToUnique(s[n..], a[|head|..], b[|head|..]);
      assert a == head + a[|head|..] && b == head + b[|head|..];
    }
  }

  /** The machine computes the substitution of maximal subparts, and nothing else meets it. */
  lemma DecodeMeetsStandard(bytes: seq<Byte>, text: seq<Unit>)
    ensures DecodesTo(bytes, text) <==> text == Decode(bytes)
  {
    DecoderSound([], bytes);
    assert [] + bytes == bytes;
    if DecodesTo(bytes, text) {
      DecodesToUnique(bytes, text, Decode(bytes));
    }
  }

  // ----- Encoding and decoding -----

  lemma DecodeScalar(held: Held, c: Scalar)
    ensures DecodeBytes(held, EncodeScalar(c)) == Decoded([], Flush(held) + Units(c))
  {
    hide Value, Units, EncodeScalar;
    var e := EncodeScalar(c);
    ValueOfEncoding(c);
    var first := DecodeByte([], e[0]);
    assert [] + [e[0]] == e[..1];
    assert DecodeByte(held, e[0]) == Decoded(first.held, Flush(held) + first.text) by {
      if held == [] {
        assert [] + first.text == first.text;
      }
    }
    if |e| == 1 {
      assert e[..1] == e;
      DecodeBytesOne(held, e);
    } else {
      DecodeRest(e, 1);
      assert first == Decoded(e[..1], []);
    }
  }

  /** From a held proper prefix of a complete sequence, the rest of it yields its scalar. */
  lemma {:induction false} DecodeRest(e: seq<Byte>, n: nat)
    requires Complete(e) && 1 <= n < |e|
    ensures Partial(e[..n]) && DecodeBytes(e[..n], e[n..]) == Decoded([], Units(Value(e)))
    decreases |e| - n
  {
    hide Value, Units, EncodeScalar, SecondOk, Need;
    assert e[..n][0] == e[0];
    assert e[..n] + [e[n]] == e[..n + 1];
    assert e[n..][1..] == e[n + 1..];
    if n + 1 == |e| {
      assert e[..n + 1] == e;
      DecodeBytesOne(e[..n], e[n..]);
    } else {
      DecodeRest(e, n + 1);
    }
  }

  lemma DecodeBytesOne(held: Held, bytes: seq<Byte>)
    requires |bytes| == 1
    ensures DecodeBytes(held, bytes) == DecodeByte(held, bytes[0])
  {
    hide DecodeByte;
    var d := DecodeByte(held, bytes[0]);
    assert bytes[1..] == [] && d.text + [] == d.text;
  }

  /** The scalar a non-empty string begins with, and the units it takes; a lone surrogate is replaced. */
  function FirstScalar(s: seq<Unit>): (r: (Scalar, nat))
    requires s != []
    ensures 1 <= r.1 <= |s|
    ensures Encode(s) == EncodeScalar(r.0) + Encode(s[r.1..])
    ensures Units(r.0) == Sanitize(s[..r.1]) && !SplitsPair(s[..r.1], s[r.1..])
  {
    hide EncodeScalar;
    if High(s[0]) && |s| > 1 && Low(s[1]) then (PairScalar(s[0], s[1]), 2)
    else (if High(s[0]) || Low(s[0]) then REPLACEMENT else s[0], 1)
  }

  /** A non-empty string's bytes finish whatever was held, decode to the string, and hold nothing. */
  lemma {:induction false} DecodeEncoded(held: Held, s: seq<Unit>)
    requires s != []
    ensures DecodeBytes(held, Encode(s)) == Decoded([], Flush(held) + Sanitize(s))
    decreases |s|
  {
    hide Value, EncodeScalar, Units, Sanitize, Encode, DecodeByte;
    var (c, n) := FirstScalar(s);
    DecodeScalar(held, c);
    DecodeBytesConcat(held, EncodeScalar(c), Encode(s[n..]));
    assert s[..n] + s[n..] == s;
    SanitizeConcat(s[..n], s[n..]);
    assert Flush(held) + Sanitize(s) == (Flush(held) + Units(c)) + Sanitize(s[n..]);
    if n < |s| {
      DecodeEncoded([], s[n..]);
      assert Flush([]) + Sanitize(s[n..]) == Sanitize(s[n..]);
    } else {
      EncodeEmpty();
      assert s[n..] == [];
    }
  }

  lemma EncodeEmpty()
    ensures Encode([]) == []
  {
  }

  lemma SanitizeFixes(s: seq<Unit>)
    ensures Sanitize(s) == s <==> WellFormed(s)
  {
    if Sanitize(s) == s {
      forall i | 0 <= i < |s| ensures Sound(s, i) {
        assert Sanitize(s)[i] == s[i];
      }
    }
  }

  /** Encoding then decoding is the identity exactly on well-formed text. */
  lemma RoundTrip(s: seq<Unit>)
    ensures Decode(Encode(s)) == s <==> WellFormed(s)
  {
    hide Sanitize, WellFormed, DecodeByte, Encode;
    SanitizeFixes(s);
    if s != [] {
      DecodeEncoded([], s);
      assert Decode(Encode(s)) == Sanitize(s);
    } else {
      EncodeEmpty();
      assert Sanitize(s) == s;
    }
  }

  // ----- Streams -----

  lemma DecodeWellFormed(bytes: seq<Byte>)
    ensures WellFormed(Decode(bytes)) && |Decode(bytes)| <= |bytes|
  {
    DecodeBytesBounds([], bytes);
    var d := DecodeBytes([], bytes);
    WellFormedConcat(d.text, Flush(d.held));
  }

  lemma DecodeNothing()
    ensures Decode([]) == []
  {
  }

  /** What has been decoded stays decoded, and what is held decodes with what follows. */
  lemma DecodeSplit(a: seq<Byte>, x: seq<Byte>)
    ensures var d := DecodeBytes([], a); Decode(a + x) == d.text + Decode(d.held + x)
  {
    var d := DecodeBytes([], a);
    var e := DecodeBytes(d.held, x);
    DecodeBytesConcat([], a, x);
    DecoderSound(d.held, x);
    DecodeMeetsStandard(d.held + x, DecodeAll(d.held, x));
    assert d.text + (e.text + Flush(e.held)) == (d.text + e.text) + Flush(e.held);
  }

  /** The bytes end with a complete encoded character. */
  ghost predicate EndsWhole(bytes: seq<Byte>) {
    exists p: seq<Byte>, c: Scalar :: bytes == p + EncodeScalar(c)
  }

  lemma EndsWholeHoldsNothing(bytes: seq<Byte>)
    requires EndsWhole(bytes)
    ensures DecodeBytes([], bytes).held == []
  {
    hide EncodeScalar, DecodeBytes;
    var p: seq<Byte>, c: Scalar :| bytes == p + EncodeScalar(c);
    DecodeBytesConcat([], p, EncodeScalar(c));
    DecodeScalar(DecodeBytes([], p).held, c);
  }

  /** An encoded string stands on its own wherever it comes in a stream of bytes. */
  lemma EncodedStandsAlone(a: seq<Byte>, s: seq<Unit>, x: seq<Byte>)
    requires s != []
    ensures Decode(a + Encode(s)) == Decode(a) + Sanitize(s)
    ensures Decode(a + Encode(s) + x) == Decode(a) + Sanitize(s) + Decode(x)
  {
    hide DecodeBytes, Encode, Sanitize;
    var d := DecodeBytes([], a);
    DecodeBytesConcat([], a, Encode(s));
    DecodeEncoded(d.held, s);
    var e := DecodeBytes([], a + Encode(s));
    assert e == Decoded([], d.text + (Flush(d.held) + Sanitize(s)));
    assert e.text == Decode(a) + Sanitize(s);
    DecodeSplit(a + Encode(s), x);
    assert [] + x == x;
    assert e.text + Flush([]) == e.text;
  }

  lemma {:induction false} EncodedEndsWhole(a: seq<Byte>, s: seq<Unit>)
    requires s != []
    ensures EndsWhole(a + Encode(s))
    decreases |s|
  {
    hide EncodeScalar, Encode;
    var (c, n) := FirstScalar(s);
    if n == |s| {
      EncodeEmpty();
      assert s[n..] == [];
      assert a + Encode(s) == a + EncodeScalar(c);
    } else {
      EncodedEndsWhole(a + EncodeScalar(c), s[n..]);
      assert a + Encode(s) == a + EncodeScalar(c) + Encode(s[n..]);
    }
  }

  /** Each byte yields at most one unit, counting those held. */
  lemma {:induction false} DecodeBytesSize(held: Held, bytes: seq<Byte>)
    ensures var d := DecodeBytes(held, bytes); |d.text| + |d.held| <= |held| + |bytes| && |d.held| <= 3
    decreases |bytes|
  {
    hide Value, Units, EncodeScalar, SecondOk, Tail, DecodeByte;
    if bytes != [] {
      DecodeByteSize(held, bytes[0]);
      DecodeBytesSize(DecodeByte(held, bytes[0]).held, bytes[1..]);
    }
  }

  lemma DecodeByteSize(held: Held, b: Byte)
    ensures var d := DecodeByte(held, b); |d.text| + |d.held| <= |held| + 1
  {
    var alone := DecodeByte([], b);
    assert |alone.text| + |alone.held| <= 1;
  }
}
