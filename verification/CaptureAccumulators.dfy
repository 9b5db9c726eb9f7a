/**
 The two accumulators that retain a stream on the parent heap: whole, or only its
 most recent bytes (cuprum/_capture_accumulators.py).
 */
module CaptureAccumulators {
  import opened Prelude
  import opened Unicode
  import opened CaptureDecode

  /** What an accumulator hands back: the payload and the record describing it. */
  datatype CaptureFinal = CaptureFinal(payload: Rendered, totalBytes: nat, droppedBytes: nat)

  /** The most recent `n` bytes of a stream. */
  function LastBytes(stream: seq<Byte>, n: nat): (tail: seq<Byte>)
    ensures |tail| == Min(|stream|, n)
  {
    if |stream| <= n then stream else stream[|stream| - n..]
  }

  /** The simple specification every other policy is compared with. */
  class FullAccumulator {
    const settings: DecodeSettings
    const littleHost: bool
    var buffer: seq<Byte>

    constructor (settings: DecodeSettings, littleHost: bool)
      ensures buffer == []
      ensures this.settings == settings && this.littleHost == littleHost
    {
      this.settings := settings;
      this.littleHost := littleHost;
      buffer := [];
    }

    method Absorb(chunk: seq<Byte>)
      modifies this
      ensures buffer == old(buffer) + chunk
    {
      buffer := buffer + chunk;
    }

    method Finalize() returns (final: CaptureFinal)
      ensures final == CaptureFinal(Render(buffer, settings, littleHost), |buffer|, 0)
    {
      final := CaptureFinal(Render(buffer, settings, littleHost), |buffer|, 0);
    }
  }

  // ------------------------------------------- what a bounded capture must report

  /** How many of a stream's oldest bytes a bound has cut. */
  function CutBytes(stream: seq<Byte>, maxBytes: nat): (n: nat)
  {
    if |stream| <= maxBytes then 0 else |stream| - maxBytes
  }

  /** The bytes a bounded capture renders, as a function of the whole stream. */
  function BoundedSource(stream: seq<Byte>, maxBytes: nat, settings: DecodeSettings, littleHost: bool): (source: seq<Byte>)
    ensures |source| <= maxBytes
  {
    var tail := LastBytes(stream, maxBytes);
    if settings.captureBytes || |stream| <= maxBytes then tail
    else TrimToCodePoint(tail, ResolvedCodec(settings.encoding, littleHost, stream), CutBytes(stream, maxBytes))
  }

  /** The finalized capture, as a function of the whole stream: no trace of the chunking is left. */
  function BoundedFinal(stream: seq<Byte>, maxBytes: nat, settings: DecodeSettings, littleHost: bool): (final: CaptureFinal)
  {
    var source := BoundedSource(stream, maxBytes, settings, littleHost);
    var codec := ResolvedCodec(settings.encoding, littleHost, stream);
    var resolved := if |stream| <= maxBytes then settings else settings.(encoding := Settled(codec));
    CaptureFinal(Render(source, resolved, littleHost), |stream|, |stream| - |source|)
  }

  /** Discarding the oldest bytes now or later leaves the same tail. */
  lemma LastBytesExtend(stream: seq<Byte>, chunk: seq<Byte>, n: nat)
    ensures
      var grown := LastBytes(stream, n) + chunk;
      && LastBytes(stream + chunk, n) == (if |grown| > n then grown[|grown| - n..] else grown)
      && |stream + chunk| - |grown| == |stream| - |LastBytes(stream, n)|
  {
  }

  /** What a remembered head becomes when a chunk arrives. */
  function GrownHead(head: seq<Byte>, chunk: seq<Byte>): (grown: seq<Byte>)
  {
    if |head| < BOM_MAX_BYTES then head + chunk[..Min(|chunk|, BOM_MAX_BYTES - |head|)] else head
  }

  lemma HeadExtend(stream: seq<Byte>, chunk: seq<Byte>)
    ensures GrownHead(stream[..Min(|stream|, BOM_MAX_BYTES)], chunk)
         == (stream + chunk)[..Min(|stream + chunk|, BOM_MAX_BYTES)]
  {
  }

  lemma CutSource(
      stream: seq<Byte>, maxBytes: nat, settings: DecodeSettings, littleHost: bool, c: Codec, tail: seq<Byte>, offset: nat,
      source: seq<Byte>)
    requires |stream| > maxBytes && !settings.captureBytes && offset == CutBytes(stream, maxBytes)
    requires c == ResolvedCodec(settings.encoding, littleHost, stream) && tail == LastBytes(stream, maxBytes)
    requires source == TrimToCodePoint(tail, c, offset)
    ensures source == BoundedSource(stream, maxBytes, settings, littleHost)
  {
  }

  class BoundedAccumulator {
    const maxBytes: nat
    const settings: DecodeSettings
    const littleHost: bool
    var buffer: seq<Byte>
    var total: nat
    var dropped: nat
    var offset: nat
    var prefix: seq<Byte>
    var truncationEmitted: bool
    /** The truncation events published so far, as (total, dropped). */
    var events: seq<(nat, nat)>
    /** Every byte absorbed so far. */
    ghost var stream: seq<Byte>

    ghost predicate Valid()
      reads this
    {
      && buffer == LastBytes(stream, maxBytes)
      && total == |stream|
      && dropped == offset == total - |buffer|
      && prefix == stream[..Min(|stream|, BOM_MAX_BYTES)]
      && |events| == (if truncationEmitted then 1 else 0)
    }

    constructor (maxBytes: nat, settings: DecodeSettings, littleHost: bool)
      ensures Valid() && stream == [] && events == []
      ensures this.maxBytes == maxBytes && this.settings == settings && this.littleHost == littleHost
    {
      this.maxBytes := maxBytes;
      this.settings := settings;
      this.littleHost := littleHost;
      buffer, total, dropped, offset, prefix := [], 0, 0, 0, [];
      truncationEmitted, events, stream := false, [], [];
    }

    method Absorb(chunk: seq<Byte>)
      requires Valid()
      modifies this
      ensures Valid() && stream == old(stream) + chunk && events == old(events)
    {
      HeadExtend(stream, chunk);
      LastBytesExtend(stream, chunk, maxBytes);
      stream := stream + chunk;
      if |prefix| < BOM_MAX_BYTES {
        prefix := prefix + chunk[..Min(|chunk|, BOM_MAX_BYTES - |prefix|)];
      }
      assert prefix == GrownHead(old(prefix), chunk);
      buffer := buffer + chunk;
      total := total + |chunk|;
      var overflow := |buffer| - maxBytes;
      if overflow > 0 {
        buffer := buffer[overflow..];
        offset := offset + overflow;
        dropped := total - |buffer|;
      }
    }

    /** The codec is resolved, and the tail trimmed, only once the head is gone. */
    method RetainedSource() returns (retained: seq<Byte>, resolved: DecodeSettings)
      requires Valid()
      ensures retained == BoundedSource(stream, maxBytes, settings, littleHost)
      ensures resolved == if |stream| <= maxBytes then settings
                          else settings.(encoding := Settled(ResolvedCodec(settings.encoding, littleHost, stream)))
    {
      retained, resolved := buffer, settings;
      if dropped > 0 {
        PrefixSelects(settings.encoding, stream);
        resolved := BoundedSettings(settings, littleHost, prefix);
        assert resolved.encoding == Settled(ResolvedCodec(settings.encoding, littleHost, stream));
        assert offset == CutBytes(stream, maxBytes);
        if !resolved.captureBytes {
          retained := TrimTail(buffer, resolved.encoding.codec, offset);
          CutSource(stream, maxBytes, settings, littleHost, resolved.encoding.codec, buffer, offset, retained);
        }
      }
    }

    method Finalize() returns (final: CaptureFinal)
      requires Valid()
      modifies this`truncationEmitted, this`events
      ensures Valid()
      ensures final == BoundedFinal(stream, maxBytes, settings, littleHost)
      ensures events == if final.droppedBytes > 0 && !old(truncationEmitted)
                        then old(events) + [(final.totalBytes, final.droppedBytes)] else old(events)
    {
      var retained, resolved := RetainedSource();
      var lost := dropped + |buffer| - |retained|;
      if lost > 0 && !truncationEmitted {
        truncationEmitted := true;
        events := events + [(total, lost)];
      }
      final := CaptureFinal(Render(retained, resolved, littleHost), total, lost);
    }
  }

  /** The remembered head selects the same codec the whole stream does. */
  lemma PrefixSelects(e: Encoding, stream: seq<Byte>)
    ensures MarkCodec(e, stream[..Min(|stream|, BOM_MAX_BYTES)]) == MarkCodec(e, stream)
  {
    forall mark: seq<Byte> | |mark| <= 4
      ensures mark <= stream[..Min(|stream|, BOM_MAX_BYTES)] <==> mark <= stream
    {
      if |mark| <= |stream| {
        assert stream[..Min(|stream|, BOM_MAX_BYTES)][..|mark|] == stream[..|mark|];
      }
    }
  }

  /** Feeding a stream chunk by chunk and finalizing twice, as a drain and a later reader do. */
  method CaptureBounded(chunks: seq<seq<Byte>>, maxBytes: nat, settings: DecodeSettings, littleHost: bool)
    returns (final: CaptureFinal, again: CaptureFinal, events: nat)
    ensures final == again == BoundedFinal(Joined(chunks), maxBytes, settings, littleHost)
    ensures events == if final.droppedBytes > 0 then 1 else 0
  {
    var accumulator := new BoundedAccumulator(maxBytes, settings, littleHost);
    for i := 0 to |chunks|
      invariant accumulator.Valid() && accumulator.events == []
      invariant accumulator.stream == Joined(chunks[..i])
    {
      JoinedAppend(chunks[..i], chunks[i]);
      assert chunks[..i + 1] == chunks[..i] + [chunks[i]];
      accumulator.Absorb(chunks[i]);
    }
    assert chunks[..|chunks|] == chunks;
    final := accumulator.Finalize();
    again := accumulator.Finalize();
    events := |accumulator.events|;
  }

  // ------------------------------------------------------------- the suffix law

  /** The text a mark adds in front of what the caller reads. */
  function MarkText(e: Encoding, stream: seq<Byte>): (mark: seq<Scalar>)
  {
    if MarkCodec(e, stream).Some? then [BYTE_ORDER_MARK] else []
  }

  /** Whether `stream` is `text` under `e`, stopped after `partial` of one more code point. */
  ghost predicate Spells(e: Encoding, littleHost: bool, stream: seq<Byte>, text: seq<Scalar>, partial: seq<Byte>)
  {
    var c := ResolvedCodec(e, littleHost, stream);
    && IsPartial(c, partial)
    && stream == Encode(c, MarkText(e, stream) + text) + partial
  }

  /** The bytes of the mark a whole-stream decode drops. */
  function MarkBytes(e: Encoding, stream: seq<Byte>): (mark: seq<Byte>)
    ensures mark <= stream
  {
    match MarkCodec(e, stream)
    case Some(c) => EncodeScalar(c, BYTE_ORDER_MARK)
    case None => []
  }

  lemma NamedDecodesAfterMark(e: Encoding, littleHost: bool, stream: seq<Byte>)
    ensures DecodeNamed(e, littleHost, stream)
         == Decode(ResolvedCodec(e, littleHost, stream), stream[|MarkBytes(e, stream)|..])
  {
    DropNothing(stream);
  }

  lemma MarkSpelling(e: Encoding, littleHost: bool, stream: seq<Byte>, text: seq<Scalar>)
    ensures
      var c := ResolvedCodec(e, littleHost, stream);
      Encode(c, MarkText(e, stream) + text) == MarkBytes(e, stream) + Encode(c, text)
  {
    var mark := MarkText(e, stream);
    if mark == [] {
      assert mark + text == text;
    } else {
      assert (mark + text)[1..] == text;
    }
  }

  /** A stream that stopped on a code point spells a text exactly when a whole-stream decode yields it. */
  lemma SpellsIffDecodes(e: Encoding, littleHost: bool, stream: seq<Byte>, text: seq<Scalar>)
    ensures Spells(e, littleHost, stream, text, []) <==> DecodeNamed(e, littleHost, stream) == Some(text)
  {
    var c := ResolvedCodec(e, littleHost, stream);
    NamedDecodesAfterMark(e, littleHost, stream);
    MarkSpelling(e, littleHost, stream, text);
    var spelled := Encode(c, MarkText(e, stream) + text);
    assert spelled + [] == spelled;
    DecodesAfter(c, MarkBytes(e, stream), stream, text);
  }

  /** What follows a front decodes to a text exactly when the front and the text's encoding are the whole. */
  lemma DecodesAfter(c: Codec, front: seq<Byte>, stream: seq<Byte>, text: seq<Scalar>)
    requires front <= stream
    ensures Decode(c, stream[|front|..]) == Some(text) <==> stream == front + Encode(c, text)
  {
    var rest := stream[|front|..];
    assert stream == front + rest;
    DecodeEncode(c, text);
    if Decode(c, rest) == Some(text) {
      EncodeDecode(c, rest);
    }
    if stream == front + Encode(c, text) {
      assert rest == Encode(c, text);
    }
  }

  /** Where the text of a cut tail starts, in code points of what a full capture reads. */
  function TailStart(e: Encoding, littleHost: bool, stream: seq<Byte>, text: seq<Scalar>, offset: nat): (k: int)
  {
    var mark := MarkText(e, stream);
    FirstBoundary(ResolvedCodec(e, littleHost, stream), mark + text, offset) - |mark|
  }

  lemma CutPastTheMark(e: Encoding, littleHost: bool, stream: seq<Byte>, text: seq<Scalar>, offset: nat)
    requires offset > 0
    ensures 0 <= TailStart(e, littleHost, stream, text, offset) <= |text|
  {
  }

  /** A tail starts past the mark, among the code points a full capture reads. */
  lemma TailIsText(e: Encoding, littleHost: bool, stream: seq<Byte>, text: seq<Scalar>, offset: nat)
    requires offset > 0
    ensures
      var mark := MarkText(e, stream);
      var k := TailStart(e, littleHost, stream, text, offset);
      && 0 <= k <= |text|
      && (mark + text)[FirstBoundary(ResolvedCodec(e, littleHost, stream), mark + text, offset)..] == text[k..]
  {
    CutPastTheMark(e, littleHost, stream, text, offset);
    DropFront(MarkText(e, stream), text, TailStart(e, littleHost, stream, text, offset));
  }

  lemma TrimOfSpelled(
      c: Codec, mark: seq<Scalar>, text: seq<Scalar>, partial: seq<Byte>, stream: seq<Byte>, offset: nat, rest: seq<Scalar>)
    requires IsPartial(c, partial) && stream == Encode(c, mark + text) + partial && offset <= |stream|
    requires (mark + text)[FirstBoundary(c, mark + text, offset)..] == rest
    ensures TrimToCodePoint(stream[offset..], c, offset) == Encode(c, rest)
  {
    TrimKeepsWholeCodePoints(c, mark + text, partial, offset, offset);
  }

  /** What the trim leaves of a cut stream's tail. */
  lemma TrimmedTail(
      e: Encoding, littleHost: bool, c: Codec, stream: seq<Byte>, text: seq<Scalar>, partial: seq<Byte>, maxBytes: nat,
      source: seq<Byte>)
    requires Spells(e, littleHost, stream, text, partial) && c == ResolvedCodec(e, littleHost, stream)
    requires |stream| > maxBytes && source == TrimToCodePoint(LastBytes(stream, maxBytes), c, CutBytes(stream, maxBytes))
    ensures
      var k := TailStart(e, littleHost, stream, text, |stream| - maxBytes);
      0 <= k <= |text| && source == Encode(c, text[k..])
  {
    var offset := CutBytes(stream, maxBytes);
    var k := TailStart(e, littleHost, stream, text, offset);
    TailIsText(e, littleHost, stream, text, offset);
    TrimOfSpelled(c, MarkText(e, stream), text, partial, stream, offset, text[k..]);
  }

  /** What is rendered of a cut stream, in bytes. */
  lemma BoundedSourceIsSuffix(
      e: Encoding, littleHost: bool, stream: seq<Byte>, text: seq<Scalar>, partial: seq<Byte>, maxBytes: nat)
    requires Spells(e, littleHost, stream, text, partial) && |stream| > maxBytes
    ensures
      var k := TailStart(e, littleHost, stream, text, |stream| - maxBytes);
      && 0 <= k <= |text|
      && BoundedSource(stream, maxBytes, DecodeSettings(e, false), littleHost)
         == Encode(ResolvedCodec(e, littleHost, stream), text[k..])
  {
    TrimmedTail(e, littleHost, ResolvedCodec(e, littleHost, stream), stream, text, partial, maxBytes,
                BoundedSource(stream, maxBytes, DecodeSettings(e, false), littleHost));
  }

  /**
   The suffix law, for every encoding, host, bound and stopping point of a stream the
   bound has cut: the text read is the longest suffix of whole code points that fits
   in the retained bytes, and nothing but the partial code points at its edges is lost.
   */
  lemma BoundedTextIsLongestSuffix(
      e: Encoding, littleHost: bool, stream: seq<Byte>, text: seq<Scalar>, partial: seq<Byte>, maxBytes: nat)
    requires Spells(e, littleHost, stream, text, partial) && |stream| > maxBytes
    ensures
      var k := TailStart(e, littleHost, stream, text, |stream| - maxBytes);
      var final := BoundedFinal(stream, maxBytes, DecodeSettings(e, false), littleHost);
      && 0 <= k <= |text|
      && final.payload == DecodedText(text[k..])
      && final.droppedBytes == |stream| - |Encode(ResolvedCodec(e, littleHost, stream), text[k..])|
  {
    var c := ResolvedCodec(e, littleHost, stream);
    var k := TailStart(e, littleHost, stream, text, |stream| - maxBytes);
    BoundedSourceIsSuffix(e, littleHost, stream, text, partial, maxBytes);
    DecodeEncode(c, text[k..]);
  }

  /** The cut costs at most three bytes beyond the partial code point at the end. */
  lemma BoundedTextIsTight(
      e: Encoding, littleHost: bool, stream: seq<Byte>, text: seq<Scalar>, partial: seq<Byte>, maxBytes: nat)
    requires Spells(e, littleHost, stream, text, partial) && |partial| <= maxBytes < |stream|
    ensures
      var k := TailStart(e, littleHost, stream, text, |stream| - maxBytes);
      && 0 <= k <= |text|
      && maxBytes - 3 <= |Encode(ResolvedCodec(e, littleHost, stream), text[k..])| + |partial| <= maxBytes
  {
    var offset := |stream| - maxBytes;
    TailIsText(e, littleHost, stream, text, offset);
    FirstBoundaryIsNear(ResolvedCodec(e, littleHost, stream), MarkText(e, stream) + text, offset);
  }

  /** No longer text fits in the retained bytes. */
  lemma NoLongerTextFits(
      e: Encoding, littleHost: bool, stream: seq<Byte>, text: seq<Scalar>, partial: seq<Byte>, maxBytes: nat, j: nat)
    requires Spells(e, littleHost, stream, text, partial) && |partial| <= maxBytes < |stream|
    requires j <= |text| && |Encode(ResolvedCodec(e, littleHost, stream), text[j..])| + |partial| <= maxBytes
    ensures TailStart(e, littleHost, stream, text, |stream| - maxBytes) <= j
  {
    var mark := MarkText(e, stream);
    DropFront(mark, text, j);
    FirstBoundaryIsFirst(ResolvedCodec(e, littleHost, stream), mark + text, |stream| - maxBytes, |mark| + j);
  }

  lemma DropFront<T>(front: seq<T>, back: seq<T>, j: nat)
    requires j <= |back|
    ensures (front + back)[|front| + j..] == back[j..]
  {
  }

  /**
   What a caller is promised for a complete stream, in every encoding and for every
   bound: a bounded capture reads a suffix of what a full capture reads, and every
   byte is either rendered or counted as dropped.
   */
  lemma BoundedReadsSuffixOfFull(e: Encoding, littleHost: bool, stream: seq<Byte>, maxBytes: nat)
    requires DecodeNamed(e, littleHost, stream).Some?
    ensures
      var settings := DecodeSettings(e, false);
      var full := DecodeNamed(e, littleHost, stream).value;
      var final := BoundedFinal(stream, maxBytes, settings, littleHost);
      && final.payload.DecodedText? && IsSuffix(final.payload.text, full)
      && final.totalBytes == final.droppedBytes + |BoundedSource(stream, maxBytes, settings, littleHost)|
      && final.droppedBytes <= Max(0, |stream| - maxBytes) + 3
  {
    var text := DecodeNamed(e, littleHost, stream).value;
    SpellsIffDecodes(e, littleHost, stream, text);
    if |stream| > maxBytes {
      BoundedTextIsLongestSuffix(e, littleHost, stream, text, [], maxBytes);
      BoundedTextIsTight(e, littleHost, stream, text, [], maxBytes);
    }
  }

  /**
   A stream that stopped inside a code point: cut by the bound it still reads cleanly,
   while uncut it is the strict decoder's error, exactly as a full capture's is.
   */
  lemma PartialStreamReads(e: Encoding, littleHost: bool, stream: seq<Byte>, text: seq<Scalar>, partial: seq<Byte>, maxBytes: nat)
    requires Spells(e, littleHost, stream, text, partial) && partial != []
    ensures BoundedFinal(stream, maxBytes, DecodeSettings(e, false), littleHost).payload.DecodedText? <==> |stream| > maxBytes
  {
    if |stream| > maxBytes {
      BoundedTextIsLongestSuffix(e, littleHost, stream, text, partial, maxBytes);
    } else if DecodeNamed(e, littleHost, stream).Some? {
      var other := DecodeNamed(e, littleHost, stream).value;
      SpellsIffDecodes(e, littleHost, stream, other);
      var c := ResolvedCodec(e, littleHost, stream);
      PendingOfWhole(c, MarkText(e, stream) + text, partial);
      PendingOfWhole(c, MarkText(e, stream) + other, []);
    }
  }

  /** In byte mode a bounded capture reads exactly the last bytes a full capture reads. */
  lemma BoundedBytesAreLast(stream: seq<Byte>, maxBytes: nat, settings: DecodeSettings, littleHost: bool)
    requires settings.captureBytes
    ensures
      var final := BoundedFinal(stream, maxBytes, settings, littleHost);
      && final.payload.RawBytes? && IsSuffix(final.payload.bytes, stream)
      && |final.payload.bytes| == Min(|stream|, maxBytes) == |stream| - final.droppedBytes
  {
    DropNothing(stream);
  }

  /**
   What a bounded capture owes to a full one of the same stream. The two agree on the total,
   and altogether while the bound is not passed; beyond it the bounded capture reads a
   suffix of what the full one reads, and is a text whenever that is.
   */
  ghost predicate AgreesWithFull(
      full: CaptureFinal, bounded: CaptureFinal, stream: seq<Byte>, maxBytes: nat, settings: DecodeSettings, littleHost: bool)
  {
    && full.totalBytes == bounded.totalBytes == |stream| && full.droppedBytes == 0
    && (|stream| <= maxBytes ==> bounded == full)
    && (settings.captureBytes ==>
          && full.payload == RawBytes(stream) && bounded.payload.RawBytes?
          && IsSuffix(bounded.payload.bytes, stream)
          && |bounded.payload.bytes| == Min(|stream|, maxBytes) == |stream| - bounded.droppedBytes)
    && (!settings.captureBytes && full.payload.DecodedText? ==>
          && DecodeNamed(settings.encoding, littleHost, stream) == Some(full.payload.text)
          && bounded.payload.DecodedText? && IsSuffix(bounded.payload.text, full.payload.text)
          && bounded.droppedBytes <= Max(0, |stream| - maxBytes) + 3)
  }

  lemma BoundedAgrees(stream: seq<Byte>, maxBytes: nat, settings: DecodeSettings, littleHost: bool)
    ensures
      var full := CaptureFinal(Render(stream, settings, littleHost), |stream|, 0);
      AgreesWithFull(full, BoundedFinal(stream, maxBytes, settings, littleHost), stream, maxBytes, settings, littleHost)
  {
    if settings.captureBytes {
      BoundedBytesAreLast(stream, maxBytes, settings, littleHost);
    } else {
      assert settings == DecodeSettings(settings.encoding, false);
      if DecodeNamed(settings.encoding, littleHost, stream).Some? {
        BoundedReadsSuffixOfFull(settings.encoding, littleHost, stream, maxBytes);
      }
    }
  }

  /** A full capture of the chunks. */
  method CaptureWhole(chunks: seq<seq<Byte>>, settings: DecodeSettings, littleHost: bool) returns (full: CaptureFinal)
    ensures full == CaptureFinal(Render(Joined(chunks), settings, littleHost), |Joined(chunks)|, 0)
  {
    var accumulator := new FullAccumulator(settings, littleHost);
    for i := 0 to |chunks|
      invariant accumulator.buffer == Joined(chunks[..i])
    {
      JoinedAppend(chunks[..i], chunks[i]);
      assert chunks[..i + 1] == chunks[..i] + [chunks[i]];
      accumulator.Absorb(chunks[i]);
    }
    assert chunks[..|chunks|] == chunks;
    full := accumulator.Finalize();
  }

  /** One stream fed to a full and to a bounded capture, each in its own chunks. */
  method CaptureBothWays(
      chunks: seq<seq<Byte>>, pieces: seq<seq<Byte>>, maxBytes: nat, settings: DecodeSettings, littleHost: bool)
    returns (full: CaptureFinal, bounded: CaptureFinal)
    requires Joined(chunks) == Joined(pieces)
    ensures AgreesWithFull(full, bounded, Joined(chunks), maxBytes, settings, littleHost)
  {
    full := CaptureWhole(chunks, settings, littleHost);
    var again, events;
    bounded, again, events := CaptureBounded(pieces, maxBytes, settings, littleHost);
    BoundedAgrees(Joined(chunks), maxBytes, settings, littleHost);
  }
}
