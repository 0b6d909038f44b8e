/**
 * Bounded joining of captured stdout/stderr (packages/reporter/src/limits.ts): mixed string and byte
 * chunks are cut into slices, pushed through one incremental decoder, stopped early and truncated.
 */
module Limits {
  import opened Prelude
  import opened Utf

  const STDIO_DECODE_SLICE_BYTES: nat := 16 * 1024
  const STDIO_STRING_SLICE_UNITS: nat := 8 * 1024
  const MAX_PENDING_BYTES: nat := 3

  datatype Chunk = Text(units: seq<Unit>) | Bytes(bytes: seq<Byte>)

  // ----- Truncation -----

  function Truncate(s: seq<Unit>, max: nat): (r: seq<Unit>) {
    if |s| <= max then s
    else if max > 0 && High(s[max - 1]) then s[..max - 1]
    else s[..max]
  }

  /** `p` is the longest well-formed beginning of `s` within `max` units. */
  ghost predicate LongestPrefix(p: seq<Unit>, s: seq<Unit>, max: nat) {
    && p <= s && |p| <= max && WellFormed(p)
    && forall n :: |p| < n <= |s| && n <= max ==> !WellFormed(s[..n])
  }

  /** On well-formed text the cut keeps the longest well-formed prefix of at most `max` units. */
  lemma TruncateLongest(s: seq<Unit>, max: nat, p: seq<Unit>)
    requires WellFormed(s)
    ensures p == Truncate(s, max) <==> LongestPrefix(p, s, max)
  {
    var t := Truncate(s, max);
    forall i | 0 <= i < |t| ensures Sound(t, i) {
      assert Sound(s, i);
    }
    forall n | |t| < n <= |s| && n <= max ensures !WellFormed(s[..n]) {
      assert !Sound(s[..n], max - 1);
    }
    assert t == s[..|t|] && WellFormed(t);
    if p <= s {
      assert p == s[..|p|];
    }
  }

  /** Whatever the text, truncating again changes nothing, and only a high surrogate is given up. */
  lemma TruncateIdempotent(s: seq<Unit>, max: nat)
    ensures Truncate(Truncate(s, max), max) == Truncate(s, max)
    ensures Truncate(s, max) <= s && |s| > max ==> |Truncate(s, max)| >= max - 1
    ensures |Truncate(s, max)| == max - 1 && |s| > max ==> High(s[max - 1])
  {
  }

  /** Two well-formed texts that reach `max` and agree up to it are truncated alike. */
  lemma TruncateAgrees(a: seq<Unit>, b: seq<Unit>, max: nat)
    requires WellFormed(a) && WellFormed(b)
    requires max <= |a| && max <= |b| && a[..max] == b[..max]
    ensures Truncate(a, max) == Truncate(b, max)
  {
    if max > 0 {
      assert a[max - 1] == a[..max][max - 1] == b[max - 1];
      assert Sound(a, max - 1) && Sound(b, max - 1);
    }
  }

  // ----- What the slices are -----

  /** Where the slice of a string ends when only the slice size bounds it. */
  function NextCut(s: seq<Unit>): (cut: nat)
    requires s != []
    ensures 1 <= cut <= |s|
  {
    var end := Min(|s|, STDIO_STRING_SLICE_UNITS);
    if High(s[end - 1]) && end < |s| then end + 1 else end
  }

  /** A string's bytes, encoded slice by slice. */
  function SliceBytes(s: seq<Unit>): seq<Byte>
    decreases |s|
  {
    if s == [] then [] else Encode(s[..NextCut(s)]) + SliceBytes(s[NextCut(s)..])
  }

  /** What these bytes decode to. */
  function SlicedText(s: seq<Unit>): (r: seq<Unit>)
    ensures |r| == |s|
    decreases |s|
  {
    if s == [] then [] else Sanitize(s[..NextCut(s)]) + SlicedText(s[NextCut(s)..])
  }

  /** The chunks' bytes laid end to end, every string encoded slice by slice. */
  function SlicedBytes(chunks: seq<Chunk>): seq<Byte> {
    if chunks == [] then []
    else (match chunks[0] case Bytes(b) => b case Text(s) => SliceBytes(s)) + SlicedBytes(chunks[1..])
  }

  /** The chunks' bytes laid end to end, every string encoded in one piece. */
  function AllBytes(chunks: seq<Chunk>): seq<Byte> {
    if chunks == [] then []
    else (match chunks[0] case Bytes(b) => b case Text(s) => Encode(s)) + AllBytes(chunks[1..])
  }

  /** `null` for no output, else the truncated text. */
  function Outcome(text: seq<Unit>, max: nat): Option<seq<Unit>> {
    if text == [] then None else Some(Truncate(text, max))
  }

  lemma SlicesStep(s: seq<Unit>)
    requires s != []
    ensures SliceBytes(s) == Encode(s[..NextCut(s)]) + SliceBytes(s[NextCut(s)..])
    ensures SlicedText(s) == Sanitize(s[..NextCut(s)]) + SlicedText(s[NextCut(s)..])
  {
  }

  lemma Regroup<T>(a: seq<T>, b: seq<T>, c: seq<T>, d: seq<T>)
    ensures a + (b + c) + d == a + b + (c + d)
    ensures a + b + (c + d) == a + (b + c) + d
  {
  }

  /** Wherever it comes, a string encoded slice by slice decodes to its sliced text. */
  lemma SlicesStandAlone(a: seq<Byte>, s: seq<Unit>, x: seq<Byte>)
    requires s != []
    ensures Decode(a + SliceBytes(s) + x) == Decode(a) + SlicedText(s) + Decode(x)
  {
    var cut := NextCut(s);
    SlicesStep(s);
    hide Decode, Encode, Sanitize, SliceBytes, SlicedText, NextCut;
    var rest := SliceBytes(s[cut..]);
    EncodedStandsAlone(a, s[..cut], rest + x);
    Regroup(a, Encode(s[..cut]), rest, x);
    SlicesAlone(s[cut..], x);
    Regroup(Decode(a), Sanitize(s[..cut]), SlicedText(s[cut..]), Decode(x));
  }

  lemma SliceAlone(s: seq<Unit>, x: seq<Byte>)
    requires s != []
    ensures Decode(Encode(s) + x) == Sanitize(s) + Decode(x)
  {
    hide Decode, Encode, Sanitize;
    EncodedStandsAlone([], s, x);
    DecodeNothing();
    assert [] + Encode(s) == Encode(s) && [] + Sanitize(s) == Sanitize(s);
  }

  lemma {:induction false} SlicesAlone(s: seq<Unit>, x: seq<Byte>)
    ensures Decode(SliceBytes(s) + x) == SlicedText(s) + Decode(x)
    decreases |s|
  {
    if s == [] {
      NoSlices();
      assert [] + x == x && [] + Decode(x) == Decode(x);
    } else {
      var cut := NextCut(s);
      SlicesStep(s);
      hide Decode, Encode, Sanitize, SliceBytes, SlicedText, NextCut;
      var first, rest := Encode(s[..cut]), SliceBytes(s[cut..]);
      Associative(first, rest, x);
      SliceAlone(s[..cut], rest + x);
      SlicesAlone(s[cut..], x);
      Associative(Sanitize(s[..cut]), SlicedText(s[cut..]), Decode(x));
    }
  }

  lemma NoSlices()
    ensures SliceBytes([]) == [] && SlicedText([]) == []
  {
  }

  // ----- The imperative code -----

  /**
   * Node's `StringDecoder("utf8")`. A decoder may hold back up to three bytes, and longer than it has to;
   * everything below relies on no more than `Promises`.
   */
  class StringDecoder {
    var pending: seq<Byte>
    ghost var fed: seq<Byte>
    ghost var said: seq<Unit>

    /** Said and pending together owe exactly the decode of the stream, and a complete character is not held back. */
    ghost predicate Promises()
      reads this
    {
      && WellFormed(said) && |pending| <= MAX_PENDING_BYTES
      && (EndsWhole(fed) ==> pending == [])
      && forall x: seq<Byte> :: Decode(fed + x) == said + Decode(pending + x)
    }

    /** How this decoder keeps them: it holds back no more than the fold over bytes has to. */
    ghost predicate Valid()
      reads this
    {
      var d := DecodeBytes([], fed); d.held == pending && d.text == said
    }

    lemma KeepsPromises()
      requires Valid()
      ensures Promises()
    {
      hide DecodeBytes, EndsWhole;
      DecodeBytesSize([], fed);
      DecodeBytesBounds([], fed);
      if EndsWhole(fed) {
        EndsWholeHoldsNothing(fed);
      }
      forall x: seq<Byte> ensures Decode(fed + x) == said + Decode(pending + x) {
        DecodeSplit(fed, x);
      }
    }

    constructor ()
      ensures fed == [] && said == [] && pending == [] && Valid() && Promises()
    {
      pending, fed, said := [], [], [];
      new;
      KeepsPromises();
    }

    method Write(bytes: seq<Byte>) returns (text: seq<Unit>)
      requires Valid()
      modifies this
      ensures Valid() && Promises()
      ensures fed == old(fed) + bytes && said == old(said) + text
      ensures |text| + |pending| <= |old(pending)| + |bytes|
    {
      hide DecodeByte, DecodeBytes;
      ghost var before: Held := pending;
      var held: Held := pending;
      text := [];
      BytesNothing(held);
      assert bytes[0..] == bytes && bytes[|bytes|..] == [];
      for i := 0 to |bytes|
        invariant pending == before && fed == old(fed) && said == old(said)
        invariant var rest := DecodeBytes(held, bytes[i..]);
                  DecodeBytes(before, bytes) == Decoded(rest.held, text + rest.text)
      {
        DecodeBytesStep(held, bytes, i);
        var d := DecodeByte(held, bytes[i]);
        var rest := DecodeBytes(d.held, bytes[i + 1..]);
        assert text + (d.text + rest.text) == (text + d.text) + rest.text;
        held, text := d.held, text + d.text;
      }
      BytesNothing(held);
      DecodeBytesConcat([], fed, bytes);
      DecodeBytesSize(before, bytes);
      pending, fed, said := held, fed + bytes, said + text;
      KeepsPromises();
    }

    method End() returns (text: seq<Unit>)
      requires Valid()
      ensures text == Decode(pending)
    {
      PendingDecodes(pending);
      text := Flush(pending);
    }
  }

  lemma BytesNothing(held: Held)
    ensures DecodeBytes(held, []) == Decoded(held, [])
  {
  }

  lemma PendingDecodes(held: Held)
    ensures Decode(held) == Flush(held)
  {
    DecoderSound(held, []);
    assert held + [] == held;
    DecodeMeetsStandard(held, DecodeAll(held, []));
    BytesNothing(held);
    assert [] + Flush(held) == Flush(held);
  }

  /** The most text that is ever held: a full output and one decoded slice. */
  function Room(max: nat): nat {
    max + STDIO_DECODE_SLICE_BYTES + MAX_PENDING_BYTES
  }

  /** Decodes `bytes` slice by slice until they run out or the output is full. */
  method WriteBytes(decoder: StringDecoder, out: seq<Unit>, bytes: seq<Byte>, max: nat)
    returns (out': seq<Unit>, ghost used: nat)
    requires decoder.Valid() && decoder.Promises() && out == decoder.said && |out| + |decoder.pending| <= Room(max)
    modifies decoder
    ensures decoder.Valid() && decoder.Promises() && out' == decoder.said
    ensures used <= |bytes| && (used == |bytes| || |out'| >= max)
    ensures decoder.fed == old(decoder.fed) + bytes[..used]
    ensures |out'| + |decoder.pending| <= Room(max)
  {
    hide StringDecoder.Valid, WellFormed, EndsWhole, Decode;
    out' := out;
    var offset := 0;
    assert decoder.fed + bytes[..0] == decoder.fed;
    while offset < |bytes| && |out'| < max
      invariant offset <= |bytes|
      invariant decoder.Valid() && decoder.Promises() && out' == decoder.said
      invariant decoder.fed == old(decoder.fed) + bytes[..offset]
      invariant |out'| + |decoder.pending| <= Room(max)
    {
      var remainingUnits := max - |out'|;
      var usefulBytes := remainingUnits * 4 + 3;
      var end := Min(|bytes|, Min(offset + STDIO_DECODE_SLICE_BYTES, offset + usefulBytes));
      assert bytes[..offset] + bytes[offset..end] == bytes[..end];
      var text := decoder.Write(bytes[offset..end]);
      out' := out' + text;
      offset := end;
    }
    used := offset;
  }

  /** `out` is full and agrees with `full` as far as truncation can see. */
  ghost predicate Saturated(out: seq<Unit>, full: seq<Unit>, max: nat) {
    max <= |out| && max <= |full| && out[..max] == full[..max]
  }

  /** Encodes a string in bounded slices that keep surrogate pairs together. */
  method WriteString(decoder: StringDecoder, out: seq<Unit>, chunk: seq<Unit>, max: nat)
    returns (out': seq<Unit>)
    requires decoder.Valid() && decoder.Promises() && out == decoder.said && |out| < max && chunk != []
    modifies decoder
    ensures decoder.Valid() && decoder.Promises() && out' == decoder.said
    ensures var whole := old(decoder.fed) + SliceBytes(chunk);
            if |out'| < max then decoder.fed == whole else Saturated(out', Decode(whole), max)
    ensures |out'| + |decoder.pending| <= Room(max)
  {
    hide StringDecoder.Valid, StringDecoder.Promises, WellFormed, Decode, Encode, SliceBytes, Saturated;
    ghost var whole := decoder.fed + SliceBytes(chunk);
    PendingFew(decoder);
    out' := out;
    var offset := 0;
    assert chunk[0..] == chunk;
    while offset < |chunk| && |out'| < max
      invariant offset <= |chunk| && |out'| + |decoder.pending| <= Room(max)
      invariant decoder.Valid() && decoder.Promises() && out' == decoder.said
      invariant if |out'| < max then decoder.fed + SliceBytes(chunk[offset..]) == whole
                else Saturated(out', Decode(whole), max)
    {
      var remainingUnits := max - |out'|;
      var end := Min(|chunk|, Min(offset + STDIO_STRING_SLICE_UNITS, offset + remainingUnits + 1));
      var last := chunk[end - 1];
      if High(last) && end < |chunk| { end := end + 1; }
      ghost var fed, before := decoder.fed, out';
      ghost var used;
      assert chunk[offset..][end - offset..] == chunk[end..];
      assert chunk[offset..][..end - offset] == chunk[offset..end];
      BeforeSlice(decoder);
      out', used := WriteBytes(decoder, out', Encode(chunk[offset..end]), max);
      SliceWritten(decoder, fed, before, chunk[offset..], end - offset, max, used);
      offset := end;
    }
    assert chunk[|chunk|..] == [];
    NoSlices();
    assert decoder.fed + [] == decoder.fed;
  }

  lemma PendingFew(decoder: StringDecoder)
    requires decoder.Promises()
    ensures |decoder.pending| <= MAX_PENDING_BYTES
  {
  }

  /** What was said is the beginning of what the bytes so far decode to. */
  lemma BeforeSlice(decoder: StringDecoder)
    requires decoder.Promises()
    ensures decoder.said <= Decode(decoder.fed)
    ensures decoder.pending == [] ==> decoder.said == Decode(decoder.fed)
  {
    hide Decode;
    assert decoder.fed + [] == decoder.fed && decoder.pending + [] == decoder.pending;
    assert Decode(decoder.fed + []) == decoder.said + Decode(decoder.pending + []);
    DecodeNothing();
  }

  /** What was said is the beginning of what any longer stream decodes to. */
  lemma SaidIsPrefix(decoder: StringDecoder, x: seq<Byte>)
    requires decoder.Promises()
    ensures decoder.said <= Decode(decoder.fed + x)
  {
    hide Decode;
  }

  /** One slice of a string either lands on the grid of cuts, or fills the output first. */
  lemma SliceWritten(decoder: StringDecoder, fed: seq<Byte>, before: seq<Unit>, s: seq<Unit>,
                     n: nat, max: nat, used: nat)
    requires s != [] && 1 <= n <= |s| && |before| < max && before <= Decode(fed)
    requires var end := Min(|s|, Min(STDIO_STRING_SLICE_UNITS, max - |before| + 1));
             n == if High(s[end - 1]) && end < |s| then end + 1 else end
    requires used <= |Encode(s[..n])| && (used == |Encode(s[..n])| || |decoder.said| >= max)
    requires decoder.Promises() && decoder.fed == fed + Encode(s[..n])[..used]
    ensures if |decoder.said| < max then decoder.fed + SliceBytes(s[n..]) == fed + SliceBytes(s)
            else Saturated(decoder.said, Decode(fed + SliceBytes(s)), max)
  {
    hide StringDecoder.Promises, WellFormed, Decode, Encode, SliceBytes, SlicedText, Sanitize, High;
    var bytes, said := Encode(s[..n]), decoder.said;
    var start := Decode(fed);
    SaidIsPrefix(decoder, bytes[used..]);
    assert fed + bytes[..used] + bytes[used..] == fed + bytes;
    EncodedStandsAlone(fed, s[..n], []);
    assert said <= start + Sanitize(s[..n]);
    if used == |bytes| {
      assert bytes[..used] == bytes;
      EncodedEndsWhole(fed, s[..n]);
      WholeSaid(decoder);
      assert said == start + Sanitize(s[..n]);
    }
    SlicesStep(s);
    SlicesStandAlone(fed, s, []);
    DecodeNothing();
    assert fed + SliceBytes(s) + [] == fed + SliceBytes(s);
    var full := Decode(fed + SliceBytes(s));
    assert full == start + SlicedText(s);
    if n == NextCut(s) {
      assert decoder.fed + SliceBytes(s[n..]) == fed + SliceBytes(s) || |said| >= max;
      assert start + SlicedText(s) == start + Sanitize(s[..n]) + SlicedText(s[n..]);
      assert said <= full;
    } else {
      SlicedTextStarts(s, n);
      var shown := start + Sanitize(s[..n])[..n - 1];
      assert |shown| >= max;
      assert shown <= start + Sanitize(s[..n]) && shown <= full;
    }
  }

  /** After a complete character everything has been said. */
  lemma WholeSaid(decoder: StringDecoder)
    requires decoder.Promises() && EndsWhole(decoder.fed)
    ensures decoder.said == Decode(decoder.fed)
  {
    BeforeSlice(decoder);
  }

  /** A shorter first slice shows the same text but for its last unit. */
  lemma SlicedTextStarts(s: seq<Unit>, n: nat)
    requires s != [] && 1 <= n <= NextCut(s)
    ensures Sanitize(s[..n])[..n - 1] <= SlicedText(s)
  {
    var cut := NextCut(s);
    SanitizePrefix(s[..n], s[..cut]);
    assert Sanitize(s[..cut])[..n - 1] <= Sanitize(s[..cut]) <= SlicedText(s);
  }

  /** The output so far continues towards `total`, or already shows all of it that will be kept. */
  ghost predicate OnTrack(out: seq<Unit>, fed: seq<Byte>, rest: seq<Chunk>, total: seq<Byte>, max: nat) {
    if |out| < max then fed + SlicedBytes(rest) == total else out[..max] <= Decode(total)
  }

  /** The body of the loop over the chunks. */
  method WriteChunk(decoder: StringDecoder, out: seq<Unit>, chunk: Chunk, ghost rest: seq<Chunk>, max: nat)
    returns (out': seq<Unit>)
    requires decoder.Valid() && decoder.Promises() && out == decoder.said && |out| < max
    modifies decoder
    ensures decoder.Valid() && decoder.Promises() && out' == decoder.said
    ensures OnTrack(out', decoder.fed, rest, old(decoder.fed) + SlicedBytes([chunk] + rest), max)
    ensures |out'| + |decoder.pending| <= Room(max)
  {
    hide StringDecoder.Valid, StringDecoder.Promises, Decode, SliceBytes, SlicedBytes, Saturated, OnTrack;
    ghost var fed := decoder.fed;
    PendingFew(decoder);
    SlicedBytesCons(chunk, rest);
    match chunk {
      case Bytes(b) =>
        ghost var used;
        out', used := WriteBytes(decoder, out, b, max);
        BytesWritten(decoder, fed, b, used, rest, max);
      case Text(s) =>
        out' := out;
        if s == [] {
          NothingWritten(out, fed, rest, max);
        } else {
          out' := WriteString(decoder, out, s, max);
          TextWritten(out', decoder.fed, fed, s, rest, max);
        }
    }
  }

  lemma SlicedBytesCons(chunk: Chunk, rest: seq<Chunk>)
    ensures SlicedBytes([chunk] + rest) ==
            (if chunk.Bytes? then chunk.bytes else SliceBytes(chunk.units)) + SlicedBytes(rest)
    ensures chunk == Text([]) ==> SlicedBytes([chunk] + rest) == SlicedBytes(rest)
  {
    assert ([chunk] + rest)[1..] == rest;
    NoSlices();
    assert [] + SlicedBytes(rest) == SlicedBytes(rest);
  }

  lemma NothingWritten(out: seq<Unit>, fed: seq<Byte>, rest: seq<Chunk>, max: nat)
    requires |out| < max
    ensures OnTrack(out, fed, rest, fed + SlicedBytes(rest), max)
  {
  }

  lemma BytesWritten(decoder: StringDecoder, fed: seq<Byte>, b: seq<Byte>, used: nat, rest: seq<Chunk>, max: nat)
    requires decoder.Promises() && used <= |b| && (used == |b| || |decoder.said| >= max)
    requires decoder.fed == fed + b[..used]
    ensures OnTrack(decoder.said, decoder.fed, rest, fed + (b + SlicedBytes(rest)), max)
  {
    hide StringDecoder.Promises, Decode, SlicedBytes;
    SaidIsPrefix(decoder, b[used..] + SlicedBytes(rest));
    Regroup(fed, b[..used], b[used..], SlicedBytes(rest));
    assert b[..used] + b[used..] == b;
    Associative(fed, b, SlicedBytes(rest));
    if used == |b| {
      assert b[..used] == b;
    }
  }

  lemma TextWritten(out: seq<Unit>, now: seq<Byte>, fed: seq<Byte>, s: seq<Unit>, rest: seq<Chunk>, max: nat)
    requires s != []
    requires var whole := fed + SliceBytes(s);
             if |out| < max then now == whole else Saturated(out, Decode(whole), max)
    ensures OnTrack(out, now, rest, fed + (SliceBytes(s) + SlicedBytes(rest)), max)
  {
    hide Decode, SliceBytes, SlicedText, SlicedBytes;
    Associative(fed, SliceBytes(s), SlicedBytes(rest));
    SlicesStandAlone(fed, s, SlicedBytes(rest));
    SlicesStandAlone(fed, s, []);
    DecodeNothing();
    assert fed + SliceBytes(s) + [] == fed + SliceBytes(s);
  }

  /** The loop over the chunks, which stops as soon as the output is full. */
  method WriteAll(decoder: StringDecoder, list: seq<Chunk>, max: nat) returns (out: seq<Unit>)
    requires decoder.Valid() && decoder.Promises() && max > 0
    requires decoder.fed == [] && decoder.said == [] && decoder.pending == []
    modifies decoder
    ensures decoder.Valid() && decoder.Promises() && out == decoder.said
    ensures OnTrack(out, decoder.fed, [], SlicedBytes(list), max)
    ensures |out| + |decoder.pending| <= Room(max)
  {
    hide StringDecoder.Valid, StringDecoder.Promises, Decode, SlicedBytes, OnTrack;
    out := [];
    var i := 0;
    assert list[0..] == list && [] + SlicedBytes(list) == SlicedBytes(list);
    NothingWritten([], [], list, max);
    while i < |list| && |out| < max
      invariant i <= |list| && |out| + |decoder.pending| <= Room(max)
      invariant decoder.Valid() && decoder.Promises() && out == decoder.said
      invariant OnTrack(out, decoder.fed, list[i..], SlicedBytes(list), max)
    {
      assert list[i..] == [list[i]] + list[i + 1..];
      OnTrackMeans(out, decoder.fed, list[i..], SlicedBytes(list), max);
      out := WriteChunk(decoder, out, list[i], list[i + 1..], max);
      i := i + 1;
    }
    assert list[|list|..] == [];
    OnTrackMeans(out, decoder.fed, list[i..], SlicedBytes(list), max);
  }

  lemma OnTrackMeans(out: seq<Unit>, fed: seq<Byte>, rest: seq<Chunk>, total: seq<Byte>, max: nat)
    requires OnTrack(out, fed, rest, total, max)
    ensures |out| < max ==> fed + SlicedBytes(rest) == total
    ensures |out| >= max ==> OnTrack(out, fed, [], total, max)
  {
  }

  lemma NothingJoined()
    ensures Outcome(Decode(SlicedBytes([])), 1) == None && Decode(SlicedBytes([])) == []
  {
    DecodeNothing();
  }

  lemma OutcomeLongest(bytes: seq<Byte>, max: nat)
    ensures var r, full := Outcome(Decode(bytes), max), Decode(bytes);
            (r.None? <==> full == []) && (r.Some? ==> LongestPrefix(r.value, full, max))
  {
    hide Decode, WellFormed;
    DecodeWellFormed(bytes);
    TruncateLongest(Decode(bytes), max, Truncate(Decode(bytes), max));
  }

  lemma JoinEnds(decoder: StringDecoder, list: seq<Chunk>, last: seq<Unit>, max: nat)
    requires decoder.Promises() && last == Decode(decoder.pending) && max > 0
    requires OnTrack(decoder.said, decoder.fed, [], SlicedBytes(list), max)
    ensures Outcome(decoder.said + last, max) == Outcome(Decode(SlicedBytes(list)), max)
  {
    var said, total := decoder.said, SlicedBytes(list);
    assert WellFormed(said) && SlicedBytes([]) == [];
    assert Decode(decoder.fed + []) == said + Decode(decoder.pending + []);
    assert decoder.fed + [] == decoder.fed && decoder.pending + [] == decoder.pending;
    hide StringDecoder.Promises, WellFormed, Decode, SlicedBytes;
    if |said| >= max {
      DecodeWellFormed(total);
      DecodeWellFormed(decoder.pending);
      WellFormedConcat(said, last);
      assert (said + last)[..max] == said[..max];
      TruncateAgrees(said + last, Decode(total), max);
    }
  }

  /**
   * `joinStdio` for every list of chunks, well-formed or not: the decode of the slices, truncated. What is
   * truncated is `held`, the text that has only grown until then, to at most a full output and one decoded
   * slice. Of the decoder nothing is used but its promises.
   */
  method JoinStdio(chunks: Option<seq<Chunk>>, max: int) returns (r: Option<seq<Unit>>, ghost held: seq<Unit>)
    ensures r == if chunks.None? || max <= 0 then None else Outcome(Decode(SlicedBytes(chunks.value)), max)
    ensures max > 0 ==> r == Outcome(held, max) && |held| <= Room(max)
    ensures chunks.Some? && max > 0 ==>
              var full := Decode(SlicedBytes(chunks.value));
              && (r.None? <==> full == [])
              && (r.Some? ==> LongestPrefix(r.value, full, max))
  {
    held := [];
    if chunks.Some? && max > 0 {
      OutcomeLongest(SlicedBytes(chunks.value), max);
    }
    if chunks.None? || |chunks.value| == 0 || max <= 0 {
      NothingJoined();
      return None, [];
    }
    hide StringDecoder.Valid, StringDecoder.Promises, Decode, SlicedBytes, Truncate, OnTrack;
    var decoder := new StringDecoder();
    var out := WriteAll(decoder, chunks.value, max);
    var last := decoder.End();
    JoinEnds(decoder, chunks.value, last, max);
    DecodeWellFormed(decoder.pending);
    out := out + last;
    held := out;
    if |out| == 0 { return None, held; }
    r := Some(Truncate(out, max));
  }

  // ----- Slicing against decoding everything in one piece -----

  /** How far a string's sliced text is faithful: up to the first surrogate pair that a cut splits. */
  function IntactUnits(s: seq<Unit>): (n: nat)
    ensures n <= |s|
    decreases |s|
  {
    if s == [] then 0
    else
      var cut := NextCut(s);
      if SplitsPair(s[..cut], s[cut..]) then cut - 1
      else cut + IntactUnits(s[cut..])
  }

  /** How many units of the joined text precede the first surrogate pair that a cut splits. */
  function Intact(pending: seq<Byte>, chunks: seq<Chunk>): nat
    decreases |chunks|
  {
    if chunks == [] then |Decode(pending)|
    else
      match chunks[0]
      case Bytes(b) => Intact(pending + b, chunks[1..])
      case Text(s) =>
        if s == [] then Intact(pending, chunks[1..])
        else if IntactUnits(s) < |s| then |Decode(pending)| + IntactUnits(s)
        else |Decode(pending)| + |s| + Intact([], chunks[1..])
  }

  /** `a` and `b` are as long, agree on `n` units, and if `n` is not all, `a` has a pair there that `b` lost. */
  ghost predicate PartsAt(a: seq<Unit>, b: seq<Unit>, n: nat) {
    && |a| == |b| && n <= |a| && a[..n] == b[..n]
    && (n < |a| ==> n + 1 < |a| && High(a[n]) && b[n] == REPLACEMENT)
  }

  lemma {:induction false} IntactUnitsCorrect(s: seq<Unit>)
    ensures PartsAt(Sanitize(s), SlicedText(s), IntactUnits(s))
    decreases |s|
  {
    hide Sanitize, Encode, SliceBytes, NextCut, High, Low;
    if s != [] {
      var cut := NextCut(s);
      var a, b := s[..cut], s[cut..];
      assert a + b == s;
      SlicesStep(s);
      hide SlicedText, PartsAt;
      if SplitsPair(a, b) {
        CutSplits(a, b, SlicedText(b));
      } else {
        SanitizeConcat(a, b);
        IntactUnitsCorrect(b);
        PartsAtPrefixed(Sanitize(a), Sanitize(b), SlicedText(b), IntactUnits(b));
      }
    }
  }

  lemma CutSplits(a: seq<Unit>, b: seq<Unit>, rest: seq<Unit>)
    requires SplitsPair(a, b) && |rest| == |b|
    ensures PartsAt(Sanitize(a + b), Sanitize(a) + rest, |a| - 1)
  {
    var s, n := a + b, |a| - 1;
    assert s[n] == a[n] && s[n + 1] == b[0];
    assert Sound(s, n) && !Sound(a, n);
    SanitizePrefix(a, s);
    assert (Sanitize(a) + rest)[..n] == Sanitize(a)[..n];
  }

  lemma PartsAtPrefixed(p: seq<Unit>, a: seq<Unit>, b: seq<Unit>, n: nat)
    requires PartsAt(a, b, n)
    ensures PartsAt(p + a, p + b, |p| + n)
  {
    assert (p + a)[..|p| + n] == p + a[..n] && (p + b)[..|p| + n] == p + b[..n];
  }

  lemma PartsAtExtended(a: seq<Unit>, b: seq<Unit>, n: nat, x: seq<Unit>, y: seq<Unit>)
    requires PartsAt(a, b, n) && n < |a| && |x| == |y|
    ensures PartsAt(a + x, b + y, n)
  {
    assert (a + x)[..n] == a[..n] && (b + y)[..n] == b[..n];
  }

  lemma PartsAtEnd(a: seq<Unit>, b: seq<Unit>, n: nat)
    requires PartsAt(a, b, n)
    ensures |a| == |b| && (n >= |a| ==> a == b)
  {
    if n == |a| {
      assert a[..n] == a && b[..n] == b;
    }
  }

  lemma {:induction false} IntactCorrect(pending: seq<Byte>, chunks: seq<Chunk>)
    ensures PartsAt(Decode(pending + AllBytes(chunks)), Decode(pending + SlicedBytes(chunks)), Intact(pending, chunks))
    decreases |chunks|
  {
    hide Decode, Encode, SliceBytes, Sanitize, SlicedText, IntactUnits, PartsAt;
    if chunks == [] {
      assert pending + [] == pending;
      PartsNowhere(Decode(pending));
    } else {
      var rest := chunks[1..];
      match chunks[0]
      case Bytes(b) =>
        Associative(pending, b, AllBytes(rest));
        Associative(pending, b, SlicedBytes(rest));
        IntactCorrect(pending + b, rest);
      case Text(s) =>
        if s == [] {
          NoSlices();
          EncodeEmpty();
          assert [] + AllBytes(rest) == AllBytes(rest) && [] + SlicedBytes(rest) == SlicedBytes(rest);
          IntactCorrect(pending, rest);
        } else {
          EncodedStandsAlone(pending, s, AllBytes(rest));
          SlicesStandAlone(pending, s, SlicedBytes(rest));
          Associative(pending, Encode(s), AllBytes(rest));
          Associative(pending, SliceBytes(s), SlicedBytes(rest));
          IntactCorrect([], rest);
          assert [] + AllBytes(rest) == AllBytes(rest) && [] + SlicedBytes(rest) == SlicedBytes(rest);
          IntactText(Decode(pending), s, Decode(AllBytes(rest)), Decode(SlicedBytes(rest)), Intact([], rest));
        }
    }
  }

  lemma PartsNowhere(a: seq<Unit>)
    ensures PartsAt(a, a, |a|)
  {
  }

  lemma IntactText(p: seq<Unit>, s: seq<Unit>, w: seq<Unit>, r: seq<Unit>, m: nat)
    requires PartsAt(w, r, m)
    ensures PartsAt(p + Sanitize(s) + w, p + SlicedText(s) + r,
                    |p| + if IntactUnits(s) < |s| then IntactUnits(s) else |s| + m)
  {
    hide Sanitize, SlicedText, IntactUnits, PartsAt;
    var n := IntactUnits(s);
    IntactUnitsCorrect(s);
    PartsAtEnd(Sanitize(s), SlicedText(s), n);
    PartsAtEnd(w, r, m);
    if n < |s| {
      PartsAtPrefixed(p, Sanitize(s), SlicedText(s), n);
      PartsAtExtended(p + Sanitize(s), p + SlicedText(s), |p| + n, w, r);
    } else {
      PartsAtPrefixed(p + Sanitize(s), w, r, m);
    }
  }

  /**
   * `joinStdio` equals "encode, concatenate, decode once, truncate" if and only if no slice boundary
   * splits a surrogate pair whose high half is among the first `max` units.
   */
  lemma JoinFaithfulIff(chunks: seq<Chunk>, max: nat)
    requires max > 0
    ensures Outcome(Decode(SlicedBytes(chunks)), max) == Outcome(Decode(AllBytes(chunks)), max)
       <==> max <= Intact([], chunks) || Intact([], chunks) == |Decode(AllBytes(chunks))|
  {
    hide Decode, SlicedBytes, AllBytes, Intact, WellFormed;
    IntactCorrect([], chunks);
    assert [] + AllBytes(chunks) == AllBytes(chunks) && [] + SlicedBytes(chunks) == SlicedBytes(chunks);
    DecodeWellFormed(AllBytes(chunks));
    DecodeWellFormed(SlicedBytes(chunks));
    var a, b, n := Decode(AllBytes(chunks)), Decode(SlicedBytes(chunks)), Intact([], chunks);
    if n == |a| {
      assert a[..n] == a && b[..n] == b;
    } else if max <= n {
      assert a[..max] == a[..n][..max] && b[..max] == b[..n][..max];
      TruncateAgrees(a, b, max);
    } else {
      FirstDifference(a, b, n, max);
    }
  }

  lemma FirstDifference(a: seq<Unit>, b: seq<Unit>, n: nat, max: nat)
    requires n < max && n + 1 < |a| == |b| && High(a[n]) && b[n] == REPLACEMENT
    ensures Truncate(a, max) != Truncate(b, max)
  {
    var s, t := Truncate(a, max), Truncate(b, max);
    if n < |s| && n < |t| {
      assert s[n] == a[n] && t[n] == b[n];
    }
  }

  /** No high surrogate stands directly before a surrogate pair. */
  predicate NoOrphanBeforePair(s: seq<Unit>) {
    forall i :: 0 <= i && i + 2 < |s| && High(s[i]) && High(s[i + 1]) ==> !Low(s[i + 2])
  }

  /** Strings that are well-formed, or merely free of that one pattern, are joined faithfully. */
  lemma JoinFaithful(chunks: seq<Chunk>, max: nat)
    requires max > 0
    requires forall s :: Text(s) in chunks ==> WellFormed(s) || NoOrphanBeforePair(s)
    ensures Outcome(Decode(SlicedBytes(chunks)), max) == Outcome(Decode(AllBytes(chunks)), max)
  {
    hide Decode, SlicedBytes, AllBytes;
    JoinFaithfulIff(chunks, max);
    IntactAll([], chunks);
    assert [] + AllBytes(chunks) == AllBytes(chunks);
  }

  lemma {:induction false} IntactAll(pending: seq<Byte>, chunks: seq<Chunk>)
    requires forall s :: Text(s) in chunks ==> WellFormed(s) || NoOrphanBeforePair(s)
    ensures Intact(pending, chunks) == |Decode(pending + AllBytes(chunks))|
    decreases |chunks|
  {
    hide Decode, Encode, Sanitize, IntactUnits, NoOrphanBeforePair;
    if chunks == [] {
      assert pending + [] == pending;
    } else {
      var rest := chunks[1..];
      assert chunks[0] in chunks;
      match chunks[0]
      case Bytes(b) =>
        Associative(pending, b, AllBytes(rest));
        IntactAll(pending + b, rest);
      case Text(s) =>
        if WellFormed(s) {
          WellFormedHasNoOrphan(s);
        }
        IntactUnitsAll(s);
        if s == [] {
          EncodeEmpty();
          assert [] + AllBytes(rest) == AllBytes(rest);
          IntactAll(pending, rest);
        } else {
          EncodedStandsAlone(pending, s, AllBytes(rest));
          Associative(pending, Encode(s), AllBytes(rest));
          IntactAll([], rest);
          assert [] + AllBytes(rest) == AllBytes(rest);
        }
    }
  }

  lemma WellFormedHasNoOrphan(s: seq<Unit>)
    requires WellFormed(s)
    ensures NoOrphanBeforePair(s)
  {
    forall i | 0 <= i && i + 2 < |s| ensures High(s[i]) && High(s[i + 1]) ==> !Low(s[i + 2]) {
      assert Sound(s, i);
    }
  }

  lemma {:induction false} IntactUnitsAll(s: seq<Unit>)
    requires NoOrphanBeforePair(s)
    ensures IntactUnits(s) == |s|
    decreases |s|
  {
    if s != [] {
      var cut := NextCut(s);
      forall i | 0 <= i && i + 2 < |s[cut..]| && High(s[cut..][i]) && High(s[cut..][i + 1])
        ensures !Low(s[cut..][i + 2])
      {
        assert s[cut..][i] == s[cut + i] && s[cut..][i + 1] == s[cut + i + 1] && s[cut..][i + 2] == s[cut + i + 2];
      }
      IntactUnitsAll(s[cut..]);
      if 2 <= cut < |s| {
        assert High(s[cut - 2]) && High(s[cut - 1]) ==> !Low(s[cut - 2 + 2]);
      }
    }
  }

  /** A lone high surrogate at a slice edge, then a pair: the cut falls inside the pair. */
  lemma JoinUnfaithful()
    ensures var chunks := [Text(seq(8191, _ => 0x78) + [0xD800, 0xD83D, 0xDE00])];
            Outcome(Decode(SlicedBytes(chunks)), 65_536) != Outcome(Decode(AllBytes(chunks)), 65_536)
  {
    hide Decode, Encode, SlicedBytes, Sanitize;
    var s: seq<Unit> := seq(8191, _ => 0x78) + [0xD800, 0xD83D, 0xDE00];
    assert |s| == 8194 && s[8191] == 0xD800 && s[8192] == 0xD83D && s[8193] == 0xDE00;
    assert NextCut(s) == 8193;
    assert SplitsPair(s[..8193], s[8193..]);
    assert IntactUnits(s) == 8192;
    var chunks := [Text(s)];
    DecodeNothing();
    assert Intact([], chunks) == 8192;
    JoinFaithfulIff(chunks, 65_536);
    EncodedStandsAlone([], s, []);
    assert AllBytes(chunks) == Encode(s) + [] == [] + Encode(s) + [];
  }
}
