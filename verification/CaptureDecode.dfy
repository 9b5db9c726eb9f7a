/**
 How a retained capture becomes the value the caller reads: the codec a bounded
 tail is read with, and the trim that moves both of its edges to code-point
 boundaries (cuprum/_capture_decode.py).
 */
module CaptureDecode {
  import opened Prelude
  import opened Unicode

  /** The encoding a caller names: a settled codec, or a family a mark selects from. */
  datatype Encoding = Settled(codec: Codec) | Utf8Sig | Utf16Family | Utf32Family

  datatype DecodeSettings = DecodeSettings(encoding: Encoding, captureBytes: bool)

  /** A finalized payload; `Undecodable` is the strict decoder's error. */
  datatype Rendered = RawBytes(bytes: seq<Byte>) | DecodedText(text: seq<Scalar>) | Undecodable

  const BOM_MAX_BYTES := 4

  // ------------------------------------------------------------ byte-order marks

  datatype Marks = Marks(family: Encoding, little: seq<Byte>, big: seq<Byte>)

  /** The marks, in the order they are tried. */
  const BOM_MARKS: seq<Marks> := [
    Marks(Utf32Family, [0xFF, 0xFE, 0, 0], [0, 0, 0xFE, 0xFF]),
    Marks(Utf16Family, [0xFF, 0xFE], [0xFE, 0xFF]),
    Marks(Utf8Sig, [0xEF, 0xBB, 0xBF], [0xEF, 0xBB, 0xBF])
  ]

  /** The codec of `family` with the given byte order. */
  function OrderedCodec(family: Encoding, little: bool): (c: Codec)
  {
    match family
    case Settled(c) => c
    case Utf8Sig => Utf8
    case Utf16Family => Utf16(little)
    case Utf32Family => Utf32(little)
  }

  /** The codec whose encoded byte-order mark opens `prefix`, for a family that has one. */
  function MarkCodec(family: Encoding, prefix: seq<Byte>): (c: Option<Codec>)
  {
    if family.Settled? then None
    else if EncodeScalar(OrderedCodec(family, true), BYTE_ORDER_MARK) <= prefix then
      Some(OrderedCodec(family, true))
    else if EncodeScalar(OrderedCodec(family, false), BYTE_ORDER_MARK) <= prefix then
      Some(OrderedCodec(family, false))
    else None
  }

  /** `_mark_selected_codec`: the table search finds the codec the mark selects. */
  method MarkSelectedCodec(family: Encoding, prefix: seq<Byte>) returns (c: Option<Codec>)
    ensures c == MarkCodec(family, prefix)
  {
    for i := 0 to |BOM_MARKS|
      invariant forall j :: 0 <= j < i ==> BOM_MARKS[j].family != family
    {
      var entry := BOM_MARKS[i];
      if entry.family != family {
        continue;
      }
      if entry.little <= prefix {
        return Some(OrderedCodec(family, true));
      }
      if entry.big <= prefix {
        return Some(OrderedCodec(family, false));
      }
      return None;
    }
    assert BOM_MARKS[0].family == Utf32Family && BOM_MARKS[1].family == Utf16Family && BOM_MARKS[2].family == Utf8Sig;
    return None;
  }

  /** The concrete codec a stream opening with `prefix` is read with on a given host. */
  function ResolvedCodec(e: Encoding, littleHost: bool, prefix: seq<Byte>): (c: Codec)
  {
    match MarkCodec(e, prefix)
    case Some(c) => c
    case None => OrderedCodec(e, littleHost)
  }

  /** `_bounded_settings`: the settings a tail is read with once its head is gone. */
  method BoundedSettings(settings: DecodeSettings, littleHost: bool, prefix: seq<Byte>)
    returns (resolved: DecodeSettings)
    ensures resolved == settings.(encoding := Settled(ResolvedCodec(settings.encoding, littleHost, prefix)))
  {
    match settings.encoding
    case Utf8Sig =>
      return settings.(encoding := Settled(Utf8));
    case Settled(_) =>
      return settings;
    case _ =>
      var marked := MarkSelectedCodec(settings.encoding, prefix);
      var codec := if marked.Some? then marked.value else OrderedCodec(settings.encoding, littleHost);
      return settings.(encoding := Settled(codec));
  }

  /** Decoding a whole stream under the name the caller gave: a leading mark is dropped. */
  function DecodeNamed(e: Encoding, littleHost: bool, bytes: seq<Byte>): (text: Option<seq<Scalar>>)
  {
    match MarkCodec(e, bytes)
    case Some(c) => Decode(c, bytes[|EncodeScalar(c, BYTE_ORDER_MARK)|..])
    case None => Decode(OrderedCodec(e, littleHost), bytes)
  }

  lemma MarkBytes(little: bool)
    ensures EncodeScalar(Utf16(little), BYTE_ORDER_MARK) == if little then [0xFF, 0xFE] else [0xFE, 0xFF]
    ensures EncodeScalar(Utf32(little), BYTE_ORDER_MARK) == if little then [0xFF, 0xFE, 0, 0] else [0, 0, 0xFE, 0xFF]
    ensures EncodeScalar(Utf8, BYTE_ORDER_MARK) == [0xEF, 0xBB, 0xBF]
  {
  }

  /**
   How each name reads a whole stream: past its own mark, in the order the mark says; without one, in
   the host's order.
   */
  lemma NamedReads(littleHost: bool, bytes: seq<Byte>)
    ensures DecodeNamed(Utf8Sig, littleHost, bytes)
         == Decode(Utf8, if [0xEF, 0xBB, 0xBF] <= bytes then bytes[3..] else bytes)
    ensures DecodeNamed(Utf16Family, littleHost, bytes)
         == if [0xFF, 0xFE] <= bytes then Decode(Utf16(true), bytes[2..])
            else if [0xFE, 0xFF] <= bytes then Decode(Utf16(false), bytes[2..])
            else Decode(Utf16(littleHost), bytes)
    ensures DecodeNamed(Utf32Family, littleHost, bytes)
         == if [0xFF, 0xFE, 0, 0] <= bytes then Decode(Utf32(true), bytes[4..])
            else if [0, 0, 0xFE, 0xFF] <= bytes then Decode(Utf32(false), bytes[4..])
            else Decode(Utf32(littleHost), bytes)
    ensures forall c :: DecodeNamed(Settled(c), littleHost, bytes) == Decode(c, bytes)
  {
    MarkBytes(true);
    MarkBytes(false);
  }

  function Render(bytes: seq<Byte>, settings: DecodeSettings, littleHost: bool): (r: Rendered)
  {
    if settings.captureBytes then RawBytes(bytes)
    else
      match DecodeNamed(settings.encoding, littleHost, bytes)
      case Some(text) => DecodedText(text)
      case None => Undecodable
  }

  // ------------------------------------------------------------------- the trim

  /** Bytes in one code unit; 1 for UTF-8, whose boundaries are found by value. */
  function UnitBytes(c: Codec): (n: nat)
    ensures n > 0
  {
    match c
    case Utf8 => 1
    case Utf16(_) => 2
    case Utf32(_) => 4
  }

  /** Bytes from a stream position to the next code unit. */
  function ToNextUnit(c: Codec, offset: nat): (n: nat)
  {
    match c
    case Utf8 => 0
    case Utf16(_) => offset % 2
    case Utf32(_) => if offset % 4 == 0 then 0 else 4 - offset % 4
  }

  /** The source's one formula for every codec. */
  lemma ToNextUnitIs(c: Codec, offset: nat)
    ensures ToNextUnit(c, offset) == (UnitBytes(c) - offset % UnitBytes(c)) % UnitBytes(c)
  {
    match c
    case Utf8 =>
    case Utf16(_) => assert UnitBytes(c) == 2;
    case Utf32(_) => assert UnitBytes(c) == 4;
  }

  /** Two stream positions at the same place in a code unit. */
  predicate Aligned(c: Codec, a: int, b: int)
  {
    match c
    case Utf8 => true
    case Utf16(_) => a % 2 == b % 2
    case Utf32(_) => a % 4 == b % 4
  }

  predicate StartsWithLowSurrogate(tail: seq<Byte>, cut: nat, c: Codec)
    requires c.Utf16?
  {
    cut + 2 <= |tail| && 0xDC <= (if c.little then tail[cut + 1] else tail[cut]) <= 0xDF
  }

  /** How many of the first `limit` bytes are UTF-8 continuation bytes, from the front. */
  function ContinuationRun(tail: seq<Byte>, limit: nat): (n: nat)
    requires limit <= |tail|
    ensures n <= limit
  {
    if limit == 0 || !IsContinuation(tail[0]) then 0 else 1 + ContinuationRun(tail[1..], limit - 1)
  }

  /** The run is the one length at which continuation bytes stop. */
  lemma {:induction false} ContinuationRunIs(tail: seq<Byte>, limit: nat, n: nat)
    requires n <= limit <= |tail|
    requires forall i :: 0 <= i < n ==> IsContinuation(tail[i])
    requires n < limit ==> !IsContinuation(tail[n])
    ensures ContinuationRun(tail, limit) == n
    decreases limit
  {
    if n > 0 {
      ContinuationRunIs(tail[1..], limit - 1, n - 1);
    }
  }

  /** How many leading bytes of `tail` are the interior of a code point. */
  function LeadingTrim(tail: seq<Byte>, c: Codec, offset: nat): (cut: nat)
    ensures cut <= |tail| && cut <= 3
  {
    if c.Utf8? then ContinuationRun(tail, Min(|tail|, 3))
    else
      var cut := ToNextUnit(c, offset);
      Min(if c.Utf16? && StartsWithLowSurrogate(tail, cut, c) then cut + 2 else cut, |tail|)
  }

  /** `_leading_trim`, with its scan written as the loop it is. */
  method FindLeadingTrim(tail: seq<Byte>, c: Codec, offset: nat) returns (cut: nat)
    ensures cut == LeadingTrim(tail, c, offset)
  {
    if !c.Utf8? {
      ToNextUnitIs(c, offset);
      var unit := UnitBytes(c);
      cut := (unit - offset % unit) % unit;
      if c.Utf16? && StartsWithLowSurrogate(tail, cut, c) {
        cut := cut + unit;
      }
      return Min(cut, |tail|);
    }
    cut := 0;
    var limit := Min(|tail|, 3);
    while cut < limit && IsContinuation(tail[cut])
      invariant cut <= limit
      invariant forall i :: 0 <= i < cut ==> IsContinuation(tail[i])
    {
      cut := cut + 1;
    }
    ContinuationRunIs(tail, limit, cut);
  }

  /** `_pending_bytes`: the incomplete code point a replacing decoder still holds at the end. */
  function PendingBytes(c: Codec, bytes: seq<Byte>): (n: nat)
    ensures n <= |bytes|
    decreases |bytes|
  {
    if bytes == [] then 0
    else
      match FrontOf(c, bytes)
      case Char(_, k) => PendingBytes(c, bytes[k..])
      case Malformed(k) => PendingBytes(c, bytes[k..])
      case Incomplete => |bytes|
  }

  /** `_trim_to_code_point` for a tail starting at stream position `offset`. */
  function TrimToCodePoint(tail: seq<Byte>, c: Codec, offset: nat): (kept: seq<Byte>)
  {
    var retained := tail[LeadingTrim(tail, c, offset)..];
    retained[..|retained| - PendingBytes(c, retained)]
  }

  /** `_trim_to_code_point` as the two steps it takes. */
  method TrimTail(tail: seq<Byte>, c: Codec, offset: nat) returns (kept: seq<Byte>)
    ensures kept == TrimToCodePoint(tail, c, offset)
  {
    var cut := FindLeadingTrim(tail, c, offset);
    var retained := tail[cut..];
    kept := retained[..|retained| - PendingBytes(c, retained)];
  }

  // ----------------------------------------------------- what the trim promises

  /** The bytes of a code point the stream stopped inside, or nothing. */
  ghost predicate IsPartial(c: Codec, partial: seq<Byte>)
  {
    || partial == []
    || exists v: Scalar :: |partial| < |EncodeScalar(c, v)| && partial == EncodeScalar(c, v)[..|partial|]
  }

  /** The first code point of `text` that starts at or after stream position `offset`. */
  function FirstBoundary(c: Codec, text: seq<Scalar>, offset: int): (k: nat)
    ensures k <= |text|
  {
    if offset <= 0 || text == [] then 0
    else 1 + FirstBoundary(c, text[1..], offset - Width(c, text[0]))
  }

  /** A whole code point in front changes nothing about what is pending. */
  lemma PendingPastFront(c: Codec, v: Scalar, rest: seq<Byte>)
    ensures PendingBytes(c, EncodeScalar(c, v) + rest) == PendingBytes(c, rest)
  {
    FrontOfEncoded(c, v, rest);
    DropFromConcat(EncodeScalar(c, v), rest, |EncodeScalar(c, v)|);
    DropNothing(rest);
  }

  lemma PendingOfPartial(c: Codec, partial: seq<Byte>)
    requires IsPartial(c, partial)
    ensures PendingBytes(c, partial) == |partial|
  {
    if partial != [] {
      var v: Scalar :| |partial| < Width(c, v) && partial == EncodeScalar(c, v)[..|partial|];
      FrontOfPartial(c, v, |partial|);
    }
  }

  lemma {:induction false} PendingOfWhole(c: Codec, text: seq<Scalar>, partial: seq<Byte>)
    requires IsPartial(c, partial)
    ensures PendingBytes(c, Encode(c, text) + partial) == |partial|
  {
    if text == [] {
      assert Encode(c, text) + partial == partial;
      PendingOfPartial(c, partial);
    } else {
      EncodeFirst(c, text, partial);
      PendingPastFront(c, text[0], Encode(c, text[1..]) + partial);
      PendingOfWhole(c, text[1..], partial);
    }
  }

  /** Whether nothing at the front of `bytes` looks like the inside of a code point. */
  predicate StartsClean(c: Codec, bytes: seq<Byte>)
  {
    match c
    case Utf8 => bytes == [] || !IsContinuation(bytes[0])
    case Utf16(_) => !StartsWithLowSurrogate(bytes, 0, c)
    case Utf32(_) => true
  }

  lemma CodePointStartsClean(c: Codec, v: Scalar, rest: seq<Byte>)
    ensures StartsClean(c, EncodeScalar(c, v) + rest)
  {
  }

  lemma PartialStartsClean(c: Codec, v: Scalar, n: nat)
    requires n <= Width(c, v)
    ensures StartsClean(c, EncodeScalar(c, v)[..n])
  {
  }

  lemma StreamStartsClean(c: Codec, text: seq<Scalar>, partial: seq<Byte>)
    requires IsPartial(c, partial)
    ensures StartsClean(c, Encode(c, text) + partial)
  {
    if text != [] {
      CodePointStartsClean(c, text[0], Encode(c, text[1..]) + partial);
      EncodeFirst(c, text, partial);
    } else {
      assert Encode(c, text) + partial == partial;
      if partial != [] {
        var v: Scalar :| |partial| < Width(c, v) && partial == EncodeScalar(c, v)[..|partial|];
        PartialStartsClean(c, v, |partial|);
      }
    }
  }

  lemma CleanStartKept(c: Codec, bytes: seq<Byte>, start: nat)
    requires StartsClean(c, bytes) && Aligned(c, start, 0)
    ensures LeadingTrim(bytes, c, start) == 0
  {
  }

  lemma InsideUtf8(v: Scalar, inside: nat, after: seq<Byte>)
    requires 0 < inside < |EncodeUtf8(v)| && StartsClean(Utf8, after)
    ensures var tail := EncodeUtf8(v)[inside..] + after;
      ContinuationRun(tail, Min(|tail|, 3)) == |EncodeUtf8(v)| - inside
  {
    var e := EncodeUtf8(v);
    var tail := e[inside..] + after;
    assert forall i :: 0 <= i < |e| - inside ==> tail[i] == e[inside + i] && IsContinuation(tail[i]);
    assert forall i :: 0 <= i < |after| ==> tail[|e| - inside + i] == after[i];
    ContinuationRunIs(tail, Min(|tail|, 3), |e| - inside);
  }

  /** The bytes of a tail around the place where a code point ends. */
  lemma TailBytes(e: seq<Byte>, inside: nat, after: seq<Byte>)
    requires inside <= |e|
    ensures var tail := e[inside..] + after;
      && |tail| == |e| - inside + |after|
      && (forall i :: 0 <= i < |e| - inside ==> tail[i] == e[inside + i])
      && (forall i :: 0 <= i < |after| ==> tail[|e| - inside + i] == after[i])
  {
  }

  lemma LowSurrogateAt(little: bool, v: Scalar)
    requires v >= 0x10000
    ensures var e := EncodeUtf16(little, v);
      && |e| == 4 && StartsWithLowSurrogate(e, 2, Utf16(little))
      && !StartsWithLowSurrogate(e, 0, Utf16(little))
  {
    var low := 0xDC00 + (v - 0x10000) % 1024;
    assert EncodeUtf16(little, v)[2..] == Unit16(little, low);
  }

  /** Inside a surrogate pair: the odd byte goes, and the low half with it. */
  lemma InsidePair(little: bool, e: seq<Byte>, inside: nat, after: seq<Byte>, offset: nat)
    requires |e| == 4 && 0 < inside < 4 && offset % 2 == inside % 2
    requires StartsWithLowSurrogate(e, 2, Utf16(little)) && StartsClean(Utf16(little), after)
    ensures LeadingTrim(e[inside..] + after, Utf16(little), offset) == 4 - inside
  {
    TailBytes(e, inside, after);
  }

  /** Inside a single unit: its other byte goes. */
  lemma InsideUnit(little: bool, e: seq<Byte>, after: seq<Byte>, offset: nat)
    requires |e| == 2 && offset % 2 == 1 && StartsClean(Utf16(little), after)
    ensures LeadingTrim(e[1..] + after, Utf16(little), offset) == 1
  {
    TailBytes(e, 1, after);
  }

  lemma InsideUtf16(little: bool, v: Scalar, inside: nat, after: seq<Byte>, offset: nat)
    requires 0 < inside < |EncodeUtf16(little, v)| && StartsClean(Utf16(little), after)
    requires offset % 2 == inside % 2
    ensures var tail := EncodeUtf16(little, v)[inside..] + after;
      LeadingTrim(tail, Utf16(little), offset) == |EncodeUtf16(little, v)| - inside
  {
    if v >= 0x10000 {
      LowSurrogateAt(little, v);
      InsidePair(little, EncodeUtf16(little, v), inside, after, offset);
    } else {
      InsideUnit(little, EncodeUtf16(little, v), after, offset);
    }
  }

  /** A tail that starts inside a code point loses exactly the rest of it. */
  lemma InsideCodePoint(c: Codec, v: Scalar, inside: nat, after: seq<Byte>, offset: nat)
    requires 0 < inside < Width(c, v) && StartsClean(c, after)
    requires Aligned(c, offset, inside)
    ensures LeadingTrim(EncodeScalar(c, v)[inside..] + after, c, offset) == Width(c, v) - inside
  {
    match c
    case Utf8 => InsideUtf8(v, inside, after);
    case Utf16(little) => InsideUtf16(little, v, inside, after, offset);
    case Utf32(_) =>
  }

  lemma InsidePartialUtf8(v: Scalar, n: nat, inside: nat)
    requires 0 < inside <= n < |EncodeUtf8(v)|
    ensures var tail := EncodeUtf8(v)[inside..n]; LeadingTrim(tail, Utf8, 0) == |tail|
  {
    var tail := EncodeUtf8(v)[inside..n];
    assert forall i :: 0 <= i < |tail| ==> tail[i] == EncodeUtf8(v)[inside + i] && IsContinuation(tail[i]);
    ContinuationRunIs(tail, Min(|tail|, 3), |tail|);
  }

  /** Less than a unit is left of a tail that starts inside an unfinished surrogate pair. */
  lemma InsidePartialUtf16(little: bool, tail: seq<Byte>, inside: nat, offset: nat)
    requires 0 < inside && inside + |tail| <= 3 && offset % 2 == inside % 2
    ensures |tail| - LeadingTrim(tail, Utf16(little), offset) < 2
  {
  }

  lemma ShortIsPending(c: Codec, bytes: seq<Byte>)
    requires !c.Utf8? && |bytes| < UnitBytes(c)
    ensures PendingBytes(c, bytes) == |bytes|
  {
  }

  /** Nothing survives of a tail that starts inside the code point the stream stopped in. */
  lemma InsidePartial(c: Codec, partial: seq<Byte>, inside: nat, offset: nat)
    requires IsPartial(c, partial) && 0 < inside <= |partial|
    requires Aligned(c, offset, inside)
    ensures TrimToCodePoint(partial[inside..], c, offset) == []
  {
    var v: Scalar :| |partial| < Width(c, v) && partial == EncodeScalar(c, v)[..|partial|];
    var tail := partial[inside..];
    match c
    case Utf8 =>
      assert tail == EncodeUtf8(v)[inside..|partial|];
      InsidePartialUtf8(v, |partial|, inside);
    case Utf16(little) =>
      InsidePartialUtf16(little, tail, inside, offset);
      ShortIsPending(c, tail[LeadingTrim(tail, c, offset)..]);
    case Utf32(_) =>
      ShortIsPending(c, tail[LeadingTrim(tail, c, offset)..]);
  }

  /** A tail that starts on a boundary keeps every whole code point of it. */
  lemma TrimAtBoundary(c: Codec, text: seq<Scalar>, partial: seq<Byte>, start: nat)
    requires IsPartial(c, partial) && Aligned(c, start, 0)
    ensures TrimToCodePoint(Encode(c, text) + partial, c, start) == Encode(c, text)
  {
    var stream := Encode(c, text) + partial;
    StreamStartsClean(c, text, partial);
    CleanStartKept(c, stream, start);
    PendingOfWhole(c, text, partial);
    DropNothing(stream);
  }

  /** A tail that starts inside a code point keeps every whole code point after it. */
  lemma TrimInsideCodePoint(c: Codec, v: Scalar, inside: nat, text: seq<Scalar>, partial: seq<Byte>, start: nat)
    requires IsPartial(c, partial) && 0 < inside < Width(c, v)
    requires Aligned(c, start, inside)
    ensures TrimToCodePoint(EncodeScalar(c, v)[inside..] + (Encode(c, text) + partial), c, start) == Encode(c, text)
  {
    var head := EncodeScalar(c, v)[inside..];
    var after := Encode(c, text) + partial;
    StreamStartsClean(c, text, partial);
    InsideCodePoint(c, v, inside, after, start);
    assert (head + after)[|head|..] == after;
    PendingOfWhole(c, text, partial);
  }

  lemma DropFromConcat(e: seq<Byte>, after: seq<Byte>, offset: nat)
    requires offset <= |e| + |after|
    ensures offset >= |e| ==> (e + after)[offset..] == after[offset - |e|..]
    ensures offset < |e| ==> (e + after)[offset..] == e[offset..] + after
  {
  }

  lemma WholeUnits(c: Codec, v: Scalar, offset: nat)
    requires offset >= Width(c, v)
    ensures Aligned(c, offset - Width(c, v), offset)
  {
  }

  lemma FirstBoundaryStep(c: Codec, text: seq<Scalar>, offset: int)
    requires text != [] && offset > 0
    ensures FirstBoundary(c, text, offset) == 1 + FirstBoundary(c, text[1..], offset - Width(c, text[0]))
    ensures text[FirstBoundary(c, text, offset)..]
         == text[1..][FirstBoundary(c, text[1..], offset - Width(c, text[0]))..]
  {
  }

  lemma EncodeFirst(c: Codec, text: seq<Scalar>, partial: seq<Byte>)
    requires text != []
    ensures Encode(c, text) + partial == EncodeScalar(c, text[0]) + (Encode(c, text[1..]) + partial)
  {
  }

  /** The trim of a tail is the same when it starts past the first code point. */
  lemma TrimPastFirst(c: Codec, text: seq<Scalar>, partial: seq<Byte>, offset: nat, start: nat)
    requires text != [] && Width(c, text[0]) <= offset <= |Encode(c, text) + partial| && Aligned(c, start, offset)
    ensures
      var width := Width(c, text[0]);
      && offset - width <= |Encode(c, text[1..]) + partial|
      && (Encode(c, text) + partial)[offset..] == (Encode(c, text[1..]) + partial)[offset - width..]
      && Aligned(c, start, offset - width)
  {
    EncodeFirst(c, text, partial);
    DropFromConcat(EncodeScalar(c, text[0]), Encode(c, text[1..]) + partial, offset);
    WholeUnits(c, text[0], offset);
  }

  lemma TrimWithinFirst(c: Codec, text: seq<Scalar>, partial: seq<Byte>, offset: nat, start: nat)
    requires text != [] && IsPartial(c, partial) && 0 < offset < Width(c, text[0])
    requires Aligned(c, start, offset)
    ensures TrimToCodePoint((Encode(c, text) + partial)[offset..], c, start) == Encode(c, text[1..])
  {
    EncodeFirst(c, text, partial);
    DropFromConcat(EncodeScalar(c, text[0]), Encode(c, text[1..]) + partial, offset);
    TrimInsideCodePoint(c, text[0], offset, text[1..], partial, start);
  }

  lemma TrimFromStart(c: Codec, text: seq<Scalar>, partial: seq<Byte>, start: nat)
    requires IsPartial(c, partial) && Aligned(c, start, 0)
    ensures TrimToCodePoint((Encode(c, text) + partial)[0..], c, start) == Encode(c, text)
  {
    TrimAtBoundary(c, text, partial, start);
    DropNothing(Encode(c, text) + partial);
  }

  lemma TrimNoText(c: Codec, partial: seq<Byte>, offset: nat, start: nat)
    requires IsPartial(c, partial) && 0 < offset <= |partial|
    requires Aligned(c, start, offset)
    ensures TrimToCodePoint((Encode(c, []) + partial)[offset..], c, start) == []
  {
    assert Encode(c, []) + partial == partial;
    InsidePartial(c, partial, offset, start);
  }

  /** The bytes of the code points that start at or after stream position `offset`. */
  function EncodeFrom(c: Codec, text: seq<Scalar>, offset: int): (bytes: seq<Byte>)
  {
    if offset <= 0 || text == [] then Encode(c, text) else EncodeFrom(c, text[1..], offset - Width(c, text[0]))
  }

  lemma {:induction false} EncodeFromBoundary(c: Codec, text: seq<Scalar>, offset: int)
    ensures EncodeFrom(c, text, offset) == Encode(c, text[FirstBoundary(c, text, offset)..])
    decreases |text|
  {
    if offset <= 0 || text == [] {
      DropNothing(text);
    } else {
      EncodeFromBoundary(c, text[1..], offset - Width(c, text[0]));
      FirstBoundaryStep(c, text, offset);
    }
  }

  /** What the trim leaves of the tail from `offset` is the code points that start there or later. */
  predicate TrimLeavesWhole(c: Codec, text: seq<Scalar>, partial: seq<Byte>, offset: nat, start: nat)
    requires offset <= |Encode(c, text) + partial|
  {
    TrimToCodePoint((Encode(c, text) + partial)[offset..], c, start) == EncodeFrom(c, text, offset)
  }

  lemma TrimStep(c: Codec, text: seq<Scalar>, partial: seq<Byte>, offset: nat, start: nat)
    requires text != [] && 0 < Width(c, text[0]) <= offset <= |Encode(c, text) + partial|
    requires offset - Width(c, text[0]) <= |Encode(c, text[1..]) + partial|
    requires (Encode(c, text) + partial)[offset..] == (Encode(c, text[1..]) + partial)[offset - Width(c, text[0])..]
    ensures TrimLeavesWhole(c, text[1..], partial, offset - Width(c, text[0]), start)
        ==> TrimLeavesWhole(c, text, partial, offset, start)
  {
    assert EncodeFrom(c, text, offset) == EncodeFrom(c, text[1..], offset - Width(c, text[0]));
  }

  lemma EncodeFromWithin(c: Codec, text: seq<Scalar>, offset: nat)
    requires text != [] && 0 < offset < Width(c, text[0])
    ensures EncodeFrom(c, text, offset) == Encode(c, text[1..])
  {
  }

  lemma LeavesFromStart(c: Codec, text: seq<Scalar>, partial: seq<Byte>, start: nat)
    requires IsPartial(c, partial) && Aligned(c, start, 0)
    ensures TrimLeavesWhole(c, text, partial, 0, start)
  {
    TrimFromStart(c, text, partial, start);
  }

  lemma LeavesNoText(c: Codec, partial: seq<Byte>, offset: nat, start: nat)
    requires IsPartial(c, partial) && 0 < offset <= |Encode(c, []) + partial| && Aligned(c, start, offset)
    ensures TrimLeavesWhole(c, [], partial, offset, start)
  {
    TrimNoText(c, partial, offset, start);
  }

  lemma LeavesWithinFirst(c: Codec, text: seq<Scalar>, partial: seq<Byte>, offset: nat, start: nat)
    requires text != [] && IsPartial(c, partial) && 0 < offset < Width(c, text[0])
    requires offset <= |Encode(c, text) + partial| && Aligned(c, start, offset)
    ensures TrimLeavesWhole(c, text, partial, offset, start)
  {
    TrimWithinFirst(c, text, partial, offset, start);
    EncodeFromWithin(c, text, offset);
  }

  /** Where a tail that starts past the first code point starts in what follows it. */
  lemma OffsetPastFirst(c: Codec, text: seq<Scalar>, partial: seq<Byte>, offset: nat, start: nat)
    requires text != [] && Width(c, text[0]) <= offset <= |Encode(c, text) + partial| && Aligned(c, start, offset)
    ensures offset - Width(c, text[0]) <= |Encode(c, text[1..]) + partial|
    ensures Aligned(c, start, offset - Width(c, text[0]))
  {
    TrimPastFirst(c, text, partial, offset, start);
  }

  lemma LeavesPastFirst(c: Codec, text: seq<Scalar>, partial: seq<Byte>, offset: nat, start: nat, later: nat)
    requires text != [] && Width(c, text[0]) <= offset <= |Encode(c, text) + partial| && Aligned(c, start, offset)
    requires later == offset - Width(c, text[0]) && later <= |Encode(c, text[1..]) + partial|
    requires TrimLeavesWhole(c, text[1..], partial, later, start)
    ensures TrimLeavesWhole(c, text, partial, offset, start)
  {
    TrimPastFirst(c, text, partial, offset, start);
    TrimStep(c, text, partial, offset, start);
  }

  lemma {:induction false} TrimKeepsEncodeFrom(c: Codec, text: seq<Scalar>, partial: seq<Byte>, offset: nat, start: nat)
    requires IsPartial(c, partial)
    requires offset <= |Encode(c, text) + partial| && Aligned(c, start, offset)
    ensures TrimLeavesWhole(c, text, partial, offset, start)
    decreases |text|
  {
    if offset == 0 {
      LeavesFromStart(c, text, partial, start);
    } else if text == [] {
      LeavesNoText(c, partial, offset, start);
    } else if offset >= Width(c, text[0]) {
      var later := offset - Width(c, text[0]);
      OffsetPastFirst(c, text, partial, offset, start);
      TrimKeepsEncodeFrom(c, text[1..], partial, later, start);
      LeavesPastFirst(c, text, partial, offset, start, later);
    } else {
      LeavesWithinFirst(c, text, partial, offset, start);
    }
  }

  /**
   The trim, for every text in every codec, every place the stream may have stopped
   and every place the tail may start: what is left is exactly the code points that
   lie wholly inside the tail.
   */
  lemma TrimKeepsWholeCodePoints(c: Codec, text: seq<Scalar>, partial: seq<Byte>, offset: nat, start: nat)
    requires IsPartial(c, partial)
    requires offset <= |Encode(c, text) + partial| && Aligned(c, start, offset)
    ensures TrimToCodePoint((Encode(c, text) + partial)[offset..], c, start)
         == Encode(c, text[FirstBoundary(c, text, offset)..])
  {
    TrimKeepsEncodeFrom(c, text, partial, offset, start);
    EncodeFromBoundary(c, text, offset);
  }

  lemma EncodeWidth(c: Codec, text: seq<Scalar>)
    requires text != []
    ensures |Encode(c, text)| == Width(c, text[0]) + |Encode(c, text[1..])|
  {
  }

  /** At most 3 bytes go at the front. */
  lemma {:induction false} FirstBoundaryIsNear(c: Codec, text: seq<Scalar>, offset: nat)
    requires offset <= |Encode(c, text)|
    ensures |Encode(c, text)| - offset - 3
         <= |Encode(c, text[FirstBoundary(c, text, offset)..])| <= |Encode(c, text)| - offset
    decreases |text|
  {
    if offset == 0 {
      DropNothing(text);
    } else {
      EncodeWidth(c, text);
      FirstBoundaryStep(c, text, offset);
      if offset < Width(c, text[0]) {
        DropNothing(text[1..]);
      } else {
        FirstBoundaryIsNear(c, text[1..], offset - Width(c, text[0]));
      }
    }
  }

  /** No longer suffix of whole code points fits in the tail. */
  lemma {:induction false} FirstBoundaryIsFirst(c: Codec, text: seq<Scalar>, offset: nat, j: nat)
    requires offset <= |Encode(c, text)| && j <= |text| && |Encode(c, text[j..])| <= |Encode(c, text)| - offset
    ensures FirstBoundary(c, text, offset) <= j
    decreases |text|
  {
    if offset > 0 {
      EncodeWidth(c, text);
      if j == 0 {
        DropNothing(text);
      } else {
        assert text[1..][j - 1..] == text[j..];
        if offset >= Width(c, text[0]) {
          FirstBoundaryIsFirst(c, text[1..], offset - Width(c, text[0]), j - 1);
        }
      }
    }
  }
}
