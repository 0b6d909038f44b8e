/**
 * The opaque cursor text (apps/dashboard/src/lib/keyset-cursor.ts): segments joined by colons, encoded as
 * UTF-8, and the bytes as base64 (section 4 of RFC 4648).
 */
module Cursor {
  import opened Prelude
  import opened Utf

  // ----- base64 -----

  type Sextet = x: int | 0 <= x < 64

  function SextetChar(s: Sextet): char {
    if s < 26 then 'A' + s as char
    else if s < 52 then 'a' + (s - 26) as char
    else if s < 62 then '0' + (s - 52) as char
    else if s == 62 then '+' else '/'
  }

  function CharSextet(c: char): Option<Sextet> {
    if 'A' <= c <= 'Z' then Some(c as int - 'A' as int)
    else if 'a' <= c <= 'z' then Some(c as int - 'a' as int + 26)
    else if '0' <= c <= '9' then Some(c as int - '0' as int + 52)
    else if c == '+' then Some(62)
    else if c == '/' then Some(63)
    else None
  }

  lemma SextetRoundTrip(s: Sextet)
    ensures CharSextet(SextetChar(s)) == Some(s)
  {
  }

  function Sextets(b: seq<Byte>): seq<Sextet> {
    if |b| == 0 then []
    else if |b| == 1 then [b[0] / 4, b[0] % 4 * 16]
    else if |b| == 2 then [b[0] / 4, b[0] % 4 * 16 + b[1] / 16, b[1] % 16 * 4]
    else [b[0] / 4, b[0] % 4 * 16 + b[1] / 16, b[1] % 16 * 4 + b[2] / 64, b[2] % 64] + Sextets(b[3..])
  }

  function Byte0(a: int, b: int): Byte
    requires 0 <= a < 64 && 0 <= b < 64
  {
    a * 4 + b / 16
  }

  function Byte1(b: int, c: int): Byte
    requires 0 <= b < 64 && 0 <= c < 64
  {
    b % 16 * 16 + c / 4
  }

  function Byte2(c: int, d: int): Byte
    requires 0 <= c < 64 && 0 <= d < 64
  {
    c % 4 * 64 + d
  }

  lemma OneBack(x: Byte)
    ensures Byte0(x / 4, x % 4 * 16) == x
  {
  }

  lemma TwoBack(x: Byte, y: Byte)
    ensures Byte0(x / 4, x % 4 * 16 + y / 16) == x && Byte1(x % 4 * 16 + y / 16, y % 16 * 4) == y
  {
  }

  /** The sextets of three bytes give the bytes back. */
  lemma ThreeBack(x: Byte, y: Byte, z: Byte)
    ensures var a, b, c, d := x / 4, x % 4 * 16 + y / 16, y % 16 * 4 + z / 64, z % 64;
            && 0 <= b < 64 && 0 <= c < 64
            && Byte0(a, b) == x && Byte1(b, c) == y && Byte2(c, d) == z
  {
  }

  /** A single sextet left over is no byte. */
  function SextetBytes(s: seq<Sextet>): Option<seq<Byte>>
    decreases |s|
  {
    if |s| == 0 then Some([])
    else if |s| == 1 then None
    else if |s| == 2 then Some([Byte0(s[0], s[1])])
    else if |s| == 3 then Some([Byte0(s[0], s[1]), Byte1(s[1], s[2])])
    else
      var rest := SextetBytes(s[4..]);
      if rest.None? then None
      else Some([Byte0(s[0], s[1]), Byte1(s[1], s[2]), Byte2(s[2], s[3])] + rest.value)
  }

  lemma ShortRoundTrip(b: seq<Byte>)
    requires |b| < 3
    ensures SextetBytes(Sextets(b)) == Some(b)
    ensures |Sextets(b)| == if |b| == 0 then 0 else |b| + 1
  {
    hide Byte0, Byte1, Byte2;
    if |b| == 1 {
      OneBack(b[0]);
      assert b == [b[0]];
    } else if |b| == 2 {
      TwoBack(b[0], b[1]);
      assert b == [b[0], b[1]];
    }
  }

  lemma GroupRoundTrip(b: seq<Byte>)
    requires |b| >= 3 && SextetBytes(Sextets(b[3..])) == Some(b[3..])
    ensures SextetBytes(Sextets(b)) == Some(b) && |Sextets(b)| == 4 + |Sextets(b[3..])|
  {
    hide Byte0, Byte1, Byte2;
    ThreeBack(b[0], b[1], b[2]);
    assert Sextets(b)[4..] == Sextets(b[3..]);
    assert b == [b[0], b[1], b[2]] + b[3..];
  }

  lemma {:induction false} BytesRoundTrip(b: seq<Byte>)
    ensures SextetBytes(Sextets(b)) == Some(b)
    ensures |Sextets(b)| % 4 == (if |b| % 3 == 0 then 0 else |b| % 3 + 1)
    decreases |b|
  {
    hide Sextets, SextetBytes;
    if |b| < 3 {
      ShortRoundTrip(b);
    } else {
      BytesRoundTrip(b[3..]);
      GroupRoundTrip(b);
    }
  }

  function Padding(n: nat): string {
    if n % 3 == 1 then "==" else if n % 3 == 2 then "=" else ""
  }

  function Btoa(b: seq<Byte>): string {
    Chars(Sextets(b)) + Padding(|b|)
  }

  function Chars(s: seq<Sextet>): (r: string)
    ensures |r| == |s| && forall i :: 0 <= i < |r| ==> r[i] == SextetChar(s[i])
  {
    seq(|s|, i requires 0 <= i < |s| => SextetChar(s[i]))
  }

  predicate Blank(c: char) {
    c == ' ' || c == '\t' || c == '\n' || c == '\r' || c == 12 as char
  }

  function WithoutBlanks(s: string): (r: string)
    ensures (forall c :: c in s ==> !Blank(c)) ==> r == s
  {
    if s == "" then "" else (if Blank(s[0]) then "" else [s[0]]) + WithoutBlanks(s[1..])
  }

  function WithoutPadding(s: string): string {
    if |s| == 0 || |s| % 4 != 0 || s[|s| - 1] != '=' then s
    else if s[|s| - 2] == '=' then s[..|s| - 2] else s[..|s| - 1]
  }

  /** None if some character is outside the alphabet. */
  function ReadChars(s: string): Option<seq<Sextet>> {
    if s == "" then Some([])
    else
      var first, rest := CharSextet(s[0]), ReadChars(s[1..]);
      if first.None? || rest.None? then None else Some([first.value] + rest.value)
  }

  /** The forgiving decoder of browsers: blanks are skipped and padding may be missing. */
  function Atob(s: string): Option<seq<Byte>> {
    var sextets := ReadChars(WithoutPadding(WithoutBlanks(s)));
    if sextets.None? then None else SextetBytes(sextets.value)
  }

  lemma {:induction false} ReadCharsRoundTrip(s: seq<Sextet>)
    ensures ReadChars(Chars(s)) == Some(s)
    decreases |s|
  {
    if s == [] {
    } else {
      SextetRoundTrip(s[0]);
      ReadCharsRoundTrip(s[1..]);
      assert Chars(s)[1..] == Chars(s[1..]) && s == [s[0]] + s[1..];
    }
  }

  lemma Base64RoundTrip(b: seq<Byte>)
    ensures Atob(Btoa(b)) == Some(b)
  {
    var chars, text := Chars(Sextets(b)), Btoa(b);
    BytesRoundTrip(b);
    ReadCharsRoundTrip(Sextets(b));
    hide Sextets, SextetBytes, ReadChars, CharSextet;
    forall i | 0 <= i < |chars| ensures !Blank(chars[i]) && chars[i] != '=' {
    }
    assert forall c :: c in text ==> !Blank(c);
    PaddingStripped(chars, |b|);
  }

  lemma PaddingStripped(chars: string, n: nat)
    requires |chars| % 4 == (if n % 3 == 0 then 0 else n % 3 + 1)
    requires forall i :: 0 <= i < |chars| ==> chars[i] != '='
    ensures WithoutPadding(chars + Padding(n)) == chars
  {
    var s := chars + Padding(n);
    assert s[..|chars|] == chars;
  }

  // ----- UTF-8 of text without lone surrogates -----

  function Utf8(s: string): seq<Byte> {
    if s == "" then [] else EncodeScalar(s[0] as int) + Utf8(s[1..])
  }

  /** The fatal decoder: None for bytes that are not well-formed. */
  function FatalUtf8(b: seq<Byte>): Option<string>
    decreases |b|
  {
    if b == [] then Some("")
    else
      var n := Need(b[0]);
      if n == 0 || n > |b| || !Complete(b[..n]) then None
      else
        var rest := FatalUtf8(b[n..]);
        if rest.None? then None else Some([Value(b[..n]) as char] + rest.value)
  }

  lemma {:induction false} FatalRoundTrip(s: string)
    ensures FatalUtf8(Utf8(s)) == Some(s)
    decreases |s|
  {
    if s != "" {
      var e := EncodeScalar(s[0] as int);
      ValueOfEncoding(s[0] as int);
      hide EncodeScalar, Value, Need, PrefixOk;
      assert e[0] == Utf8(s)[0] && Complete(e) && |e| == Need(e[0]);
      assert Utf8(s)[..|e|] == e && Utf8(s)[|e|..] == Utf8(s[1..]);
      FatalRoundTrip(s[1..]);
      assert s == [s[0]] + s[1..];
    }
  }

  const BYTE_ORDER_MARK: char := '\U{FEFF}'

  /** The decoder does not keep a byte order mark in front. */
  function WithoutMark(t: string): string {
    if t != "" && t[0] == BYTE_ORDER_MARK then t[1..] else t
  }

  /** `new TextDecoder("utf-8", { fatal: true })`. */
  function DecodeText(b: seq<Byte>): Option<string> {
    var text := FatalUtf8(b);
    if text.None? then None else Some(WithoutMark(text.value))
  }

  /** Text comes back but for one byte order mark in front, so exactly the texts without one come back whole. */
  lemma Utf8RoundTrip(s: string)
    ensures DecodeText(Utf8(s)) == Some(WithoutMark(s))
    ensures DecodeText(Utf8(s)) == Some(s) <==> s == "" || s[0] != BYTE_ORDER_MARK
  {
    hide Utf8, FatalUtf8;
    FatalRoundTrip(s);
    assert s != "" ==> |s[1..]| < |s|;
  }

  // ----- Cursors -----

  function IndexOfColon(s: string, from: nat): (idx: int)
    requires from <= |s|
    ensures idx == -1 || from <= idx < |s|
    ensures idx != -1 ==> s[idx] == ':' && forall i :: from <= i < idx ==> s[i] != ':'
    ensures idx == -1 ==> forall i :: from <= i < |s| ==> s[i] != ':'
    decreases |s| - from
  {
    if from == |s| then -1 else if s[from] == ':' then from else IndexOfColon(s, from + 1)
  }

  /** `segments.join(":")`. */
  function Join(segments: seq<string>): string {
    if segments == [] then ""
    else if |segments| == 1 then segments[0]
    else segments[0] + ":" + Join(segments[1..])
  }

  /** So many segments, the last being all the rest; None if there are fewer, or an empty one before the last. */
  function Split(text: string, arity: nat): (r: Option<seq<string>>)
    ensures r.Some? ==> |r.value| == Max(1, arity)
  {
    if arity <= 1 then Some([text])
    else
      var sep := IndexOfColon(text, 0);
      if sep <= 0 then None else Prepend([text[..sep]], Split(text[sep + 1..], arity - 1))
  }

  function Prepend(front: seq<string>, rest: Option<seq<string>>): Option<seq<string>> {
    if rest.None? then None else Some(front + rest.value)
  }

  function EncodeKeyset(segments: seq<string>): string {
    Btoa(Utf8(Join(segments)))
  }

  /** None for an empty or malformed cursor. */
  function DecodeKeyset(raw: Option<string>, arity: nat): (r: Option<seq<string>>)
    ensures r.Some? ==> |r.value| == Max(1, arity)
  {
    if raw.None? || raw.value == "" || Atob(raw.value).None? then None
    else
      var text := DecodeText(Atob(raw.value).value);
      if text.None? then None else Split(text.value, arity)
  }

  /** The loop over the separators. */
  method SplitSegments(decoded: string, arity: nat) returns (r: Option<seq<string>>)
    ensures r == Split(decoded, arity)
  {
    var segments := [];
    var start := 0;
    var i := 0;
    assert decoded[0..] == decoded;
    PrependNothing(Split(decoded, arity));
    while i < arity - 1
      invariant 0 <= i <= Max(arity - 1, 0) && start <= |decoded|
      invariant Split(decoded, arity) == Prepend(segments, Split(decoded[start..], arity - i))
    {
      var sep := IndexOfColon(decoded, start);
      IndexFrom(decoded, start);
      if sep == -1 { return None; }
      if sep == start { return None; }
      assert decoded[start..][..sep - start] == decoded[start..sep];
      assert decoded[start..][sep - start + 1..] == decoded[sep + 1..];
      PrependMore(segments, decoded[start..sep], Split(decoded[sep + 1..], arity - i - 1));
      segments := segments + [decoded[start..sep]];
      start := sep + 1;
      i := i + 1;
    }
    return Some(segments + [decoded[start..]]);
  }

  lemma PrependNothing(rest: Option<seq<string>>)
    ensures Prepend([], rest) == rest
  {
    assert rest.Some? ==> [] + rest.value == rest.value;
  }

  lemma PrependMore(front: seq<string>, segment: string, rest: Option<seq<string>>)
    ensures Prepend(front, Prepend([segment], rest)) == Prepend(front + [segment], rest)
  {
    assert rest.Some? ==> front + ([segment] + rest.value) == front + [segment] + rest.value;
  }

  /** Looking from `start` on is looking in the rest. */
  lemma IndexFrom(s: string, start: nat)
    requires start <= |s|
    ensures var idx, there := IndexOfColon(s, start), IndexOfColon(s[start..], 0);
            if idx == -1 then there == -1 else there == idx - start
  {
    var idx, there := IndexOfColon(s, start), IndexOfColon(s[start..], 0);
    if there != -1 {
      assert s[start + there] == s[start..][there];
    }
    if idx != -1 {
      assert s[start..][idx - start] == s[idx];
    }
  }

  /** Every segment but the last is free of colons. */
  predicate Separable(segments: seq<string>) {
    segments != [] && forall i :: 0 <= i < |segments| - 1 ==> ':' !in segments[i]
  }

  predicate SomeEmpty(segments: seq<string>) {
    exists i :: 0 <= i < |segments| - 1 && segments[i] == ""
  }

  lemma {:induction false} SplitJoined(segments: seq<string>)
    requires Separable(segments)
    ensures Split(Join(segments), |segments|) == if SomeEmpty(segments) then None else Some(segments)
  {
    if |segments| == 1 {
      assert segments == [segments[0]];
    } else {
      var first, rest := segments[0], segments[1..];
      var text := Join(segments);
      assert text == first + ":" + Join(rest);
      FirstColon(first, Join(rest));
      assert Separable(rest) by {
        forall i | 0 <= i < |rest| - 1 ensures ':' !in rest[i] {
          assert rest[i] == segments[i + 1];
        }
      }
      SplitJoined(rest);
      EmptyAtFrontOrLater(segments);
      assert segments == [first] + rest;
    }
  }

  lemma EmptyAtFrontOrLater(segments: seq<string>)
    requires |segments| > 1
    ensures SomeEmpty(segments) <==> segments[0] == "" || SomeEmpty(segments[1..])
  {
    var rest := segments[1..];
    if SomeEmpty(segments) && segments[0] != "" {
      var i :| 0 <= i < |segments| - 1 && segments[i] == "";
      assert rest[i - 1] == "";
    }
    if SomeEmpty(rest) {
      var i :| 0 <= i < |rest| - 1 && rest[i] == "";
      assert segments[i + 1] == "";
    }
  }

  lemma FirstColon(first: string, rest: string)
    requires ':' !in first
    ensures var text := first + ":" + rest;
            IndexOfColon(text, 0) == |first| && text[..|first|] == first && text[|first| + 1..] == rest
  {
    var text := first + ":" + rest;
    assert text[|first|] == ':';
    forall i | 0 <= i < |first| ensures text[i] != ':' {
      assert text[i] == first[i] && first[i] in first;
    }
  }

  /** The segments as they come back: without a byte order mark in front of the first. */
  function Unmarked(segments: seq<string>): (r: seq<string>)
    requires segments != []
    ensures |r| == |segments|
  {
    [WithoutMark(segments[0])] + segments[1..]
  }

  lemma UnmarkedJoin(segments: seq<string>)
    requires Separable(segments)
    ensures Join(Unmarked(segments)) == WithoutMark(Join(segments)) && Separable(Unmarked(segments))
  {
    var shown := Unmarked(segments);
    assert shown[1..] == segments[1..];
    if |segments| > 1 {
      var rest := ":" + Join(segments[1..]);
      assert Join(segments) == segments[0] + rest && Join(shown) == shown[0] + rest;
      assert segments[0] != "" ==> (segments[0] + rest)[1..] == segments[0][1..] + rest;
      forall c | c in shown[0] ensures c in segments[0] {}
    }
  }

  /**
   * For any number of segments: they come back, but for a byte order mark in front, whatever the last one
   * contains, unless one before the last has become empty or nothing was encoded at all.
   */
  lemma KeysetRoundTrip(segments: seq<string>)
    requires Separable(segments)
    ensures DecodeKeyset(Some(EncodeKeyset(segments)), |segments|) ==
            if Join(segments) == "" || SomeEmpty(Unmarked(segments)) then None else Some(Unmarked(segments))
  {
    var text := Join(segments);
    hide Utf8, Btoa, Atob, DecodeText, Join, Split;
    if text == "" {
      NothingEncoded();
    } else {
      Utf8RoundTrip(text);
      Base64RoundTrip(Utf8(text));
      NotEmpty(text);
      UnmarkedJoin(segments);
      SplitJoined(Unmarked(segments));
    }
  }

  lemma NothingEncoded()
    ensures Btoa(Utf8("")) == ""
  {
  }

  lemma NotEmpty(text: string)
    requires text != ""
    ensures Utf8(text) != [] && Btoa(Utf8(text)) != ""
  {
    assert |EncodeScalar(text[0] as int)| >= 1;
  }
}
