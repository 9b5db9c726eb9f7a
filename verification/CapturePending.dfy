/**
 What the trim makes of arbitrary bytes, well formed or not: where a replacing decoder runs
 out, and what it then holds back (cuprum/_capture_decode.py).
 */
module CapturePending {
  import opened Prelude
  import opened Unicode
  import opened CaptureDecode

  // ------------------------------------------------------------ what is held back

  /** How many of `n` bytes make up whole code units. */
  function UnitsIn(c: Codec, n: nat): (whole: nat)
    ensures whole <= n
  {
    match c
    case Utf8 => n
    case Utf16(_) => n - n % 2
    case Utf32(_) => n - n % 4
  }

  /**
   Bytes no decoder can decide yet: the start of some code point, or such a start, or
   nothing, with a code unit behind it that has not arrived in full.
   */
  ghost predicate IsHeldBack(c: Codec, bytes: seq<Byte>)
  {
    var whole := UnitsIn(c, |bytes|);
    bytes != [] && (IsPartial(c, bytes) || (whole < |bytes| && IsPartial(c, bytes[..whole])))
  }

  /** The least bytes that complete a UTF-8 start. */
  function Utf8Filler(bytes: seq<Byte>): (filler: seq<Byte>)
    requires bytes != [] && 0 < Utf8Width(bytes[0])
  {
    var second: Byte := if bytes[0] == 0xE0 then 0xA0 else if bytes[0] == 0xF0 then 0x90 else 0x80;
    var all := [second, 0x80, 0x80];
    if |bytes| <= Utf8Width(bytes[0]) then all[|bytes| - 1..Utf8Width(bytes[0]) - 1] else []
  }

  lemma FillerFits(bytes: seq<Byte>, filler: seq<Byte>)
    requires bytes != [] && 0 < Utf8Width(bytes[0]) && |bytes| < Utf8Width(bytes[0])
    requires filler == Utf8Filler(bytes)
    ensures |bytes| + |filler| == Utf8Width(bytes[0])
    ensures forall i :: 0 <= i < |filler| ==> IsContinuation(filler[i])
    ensures |bytes| == 1 ==> Utf8SecondByteOk(bytes[0], filler[0])
  {
  }

  lemma FilledIsOk(bytes: seq<Byte>, whole: seq<Byte>)
    requires bytes != [] && 0 < Utf8Width(bytes[0]) && |bytes| < Utf8Width(bytes[0])
    requires Utf8PrefixOk(bytes, |bytes|) && whole == bytes + Utf8Filler(bytes)
    ensures |whole| == Utf8Width(bytes[0]) && whole[0] == bytes[0] && Utf8PrefixOk(whole, |whole|)
  {
    FillerFits(bytes, Utf8Filler(bytes));
    assert forall i :: 0 <= i < |bytes| ==> whole[i] == bytes[i];
  }

  lemma OkIsRead(whole: seq<Byte>)
    requires whole != [] && |whole| == Utf8Width(whole[0]) && Utf8PrefixOk(whole, |whole|)
    ensures FrontUtf8(whole).Char? && FrontUtf8(whole).length == |whole|
  {
  }

  lemma Utf8IsCompletable(bytes: seq<Byte>)
    requires bytes != [] && FrontUtf8(bytes).Incomplete?
    ensures FrontUtf8(bytes + Utf8Filler(bytes)).Char?
    ensures |bytes| < FrontUtf8(bytes + Utf8Filler(bytes)).length == |bytes + Utf8Filler(bytes)|
  {
    FilledIsOk(bytes, bytes + Utf8Filler(bytes));
    OkIsRead(bytes + Utf8Filler(bytes));
  }

  /** A code point read beyond some bytes starts with them. */
  lemma CompletedIsPartial(c: Codec, bytes: seq<Byte>, more: seq<Byte>)
    requires bytes != [] && FrontOf(c, bytes + more).Char? && FrontOf(c, bytes + more).length > |bytes|
    ensures IsPartial(c, bytes)
  {
    var f := FrontOf(c, bytes + more);
    FrontIsEncoded(c, bytes + more);
    assert (bytes + more)[..f.length][..|bytes|] == bytes;
    assert bytes == EncodeScalar(c, f.value)[..|bytes|];
  }

  lemma PairIsCompletable(little: bool, bytes: seq<Byte>)
    requires |bytes| == 2 && IsHighSurrogate(ReadUnit16(little, bytes))
    ensures IsPartial(Utf16(little), bytes)
  {
    var more: seq<Byte> := if little then [0, 0xDC] else [0xDC, 0];
    var whole := bytes + more;
    assert whole[2..] == more && whole[0] == bytes[0] && whole[1] == bytes[1];
    CompletedIsPartial(Utf16(little), bytes, more);
  }

  lemma IncompleteUtf8IsPartial(bytes: seq<Byte>)
    requires bytes != [] && FrontUtf8(bytes).Incomplete?
    ensures IsPartial(Utf8, bytes)
  {
    Utf8IsCompletable(bytes);
    CompletedIsPartial(Utf8, bytes, Utf8Filler(bytes));
  }

  lemma IncompleteUtf16IsHeldBack(little: bool, bytes: seq<Byte>)
    requires bytes != [] && FrontUtf16(little, bytes).Incomplete?
    ensures IsHeldBack(Utf16(little), bytes)
  {
    if |bytes| >= 2 {
      var first := bytes[..2];
      assert ReadUnit16(little, first) == ReadUnit16(little, bytes);
      PairIsCompletable(little, first);
      assert |bytes| == 2 ==> bytes == first;
    } else {
      assert bytes[..0] == [];
    }
  }

  lemma ShortOfUnit(c: Codec, bytes: seq<Byte>)
    requires bytes != [] && UnitsIn(c, |bytes|) == 0
    ensures IsHeldBack(c, bytes)
  {
    assert bytes[..0] == [];
  }

  lemma IncompleteIsHeldBack(c: Codec, bytes: seq<Byte>)
    requires bytes != [] && FrontOf(c, bytes).Incomplete?
    ensures IsHeldBack(c, bytes)
  {
    match c
    case Utf8 => IncompleteUtf8IsPartial(bytes);
    case Utf16(little) => IncompleteUtf16IsHeldBack(little, bytes);
    case Utf32(_) => ShortOfUnit(c, bytes);
  }

  lemma PartialIsIncomplete(c: Codec, bytes: seq<Byte>)
    requires bytes != [] && IsPartial(c, bytes)
    ensures FrontOf(c, bytes).Incomplete?
  {
    var v: Scalar :| |bytes| < |EncodeScalar(c, v)| && bytes == EncodeScalar(c, v)[..|bytes|];
    FrontOfPartial(c, v, |bytes|);
  }

  lemma HalfUnitIsIncomplete(c: Codec, bytes: seq<Byte>, start: seq<Byte>)
    requires bytes != [] && start == bytes[..UnitsIn(c, |bytes|)] && |start| < |bytes|
    requires start == [] || FrontOf(c, start).Incomplete?
    ensures FrontOf(c, bytes).Incomplete?
  {
  }

  lemma HeldBackIsIncomplete(c: Codec, bytes: seq<Byte>)
    requires IsHeldBack(c, bytes)
    ensures FrontOf(c, bytes).Incomplete?
  {
    if IsPartial(c, bytes) {
      PartialIsIncomplete(c, bytes);
    } else {
      var start := bytes[..UnitsIn(c, |bytes|)];
      if start != [] {
        PartialIsIncomplete(c, start);
      }
      HalfUnitIsIncomplete(c, bytes, start);
    }
  }

  /** A decoder waits for more exactly on what it cannot decide yet. */
  lemma IncompleteIffHeldBack(c: Codec, bytes: seq<Byte>)
    requires bytes != []
    ensures FrontOf(c, bytes).Incomplete? <==> IsHeldBack(c, bytes)
  {
    if FrontOf(c, bytes).Incomplete? {
      IncompleteIsHeldBack(c, bytes);
    }
    if IsHeldBack(c, bytes) {
      HeldBackIsIncomplete(c, bytes);
    }
  }

  lemma CompletionOf(c: Codec, bytes: seq<Byte>) returns (more: seq<Byte>)
    requires bytes != [] && IsPartial(c, bytes)
    ensures FrontOf(c, bytes + more).Char? && FrontOf(c, bytes + more).length > |bytes|
  {
    var v: Scalar :| |bytes| < |EncodeScalar(c, v)| && bytes == EncodeScalar(c, v)[..|bytes|];
    more := EncodeScalar(c, v)[|bytes|..];
    FrontOfEncoded(c, v, []);
    assert bytes + more == EncodeScalar(c, v) + [];
  }

  /**
   Later bytes can complete what a decoder waits on to a code point exactly if it starts one; in
   UTF-8 it always does.
   */
  lemma CompletableIff(c: Codec, bytes: seq<Byte>)
    requires bytes != [] && FrontOf(c, bytes).Incomplete?
    ensures IsPartial(c, bytes) <==>
      exists more: seq<Byte> :: FrontOf(c, bytes + more).Char? && FrontOf(c, bytes + more).length > |bytes|
    ensures c.Utf8? ==> IsPartial(c, bytes)
  {
    IncompleteIsHeldBack(c, bytes);
    if IsPartial(c, bytes) {
      var more := CompletionOf(c, bytes);
      assert FrontOf(c, bytes + more).Char? && FrontOf(c, bytes + more).length > |bytes|;
    }
    if more: seq<Byte> :| FrontOf(c, bytes + more).Char? && FrontOf(c, bytes + more).length > |bytes| {
      CompletedIsPartial(c, bytes, more);
    }
  }

  /** Half a code unit is waited on whatever it is: here no byte that follows can make it a code point. */
  lemma DoomedUnit(more: seq<Byte>)
    ensures FrontOf(Utf16(false), [0xDC]).Incomplete? && !FrontOf(Utf16(false), [0xDC] + more).Char?
  {
    if more != [] {
      assert ([0xDC] + more)[1] == more[0];
    }
  }

  // ------------------------------------------------------------ where reading ends

  ghost predicate StartsWhole(c: Codec, bytes: seq<Byte>, v: Scalar)
  {
    EncodeScalar(c, v) <= bytes
  }

  /**
   What reading `bytes` from the front leaves, whole code points one by one and past each
   ill-formed unit, when it first has nothing to go on with. A replacing decoder replaces
   ill-formed bytes in longer runs; as none of those starts a code point, it ends there too.
   */
  ghost predicate RunsOut(c: Codec, bytes: seq<Byte>, left: seq<Byte>)
    decreases |bytes|
  {
    if bytes == [] then left == []
    else if exists v: Scalar :: StartsWhole(c, bytes, v) then
      exists v: Scalar :: StartsWhole(c, bytes, v) && Width(c, v) <= |bytes| && RunsOut(c, bytes[Width(c, v)..], left)
    else if IsHeldBack(c, bytes) then left == bytes
    else UnitBytes(c) <= |bytes| && RunsOut(c, bytes[UnitBytes(c)..], left)
  }

  lemma WholeIsRead(c: Codec, bytes: seq<Byte>, v: Scalar)
    requires StartsWhole(c, bytes, v)
    ensures bytes != [] && FrontOf(c, bytes) == Char(v, Width(c, v))
  {
    var e := EncodeScalar(c, v);
    assert bytes == e + bytes[|e|..];
    FrontOfEncoded(c, v, bytes[|e|..]);
  }

  lemma ReadIsWhole(c: Codec, bytes: seq<Byte>)
    requires bytes != [] && FrontOf(c, bytes).Char?
    ensures StartsWhole(c, bytes, FrontOf(c, bytes).value)
    ensures Width(c, FrontOf(c, bytes).value) == FrontOf(c, bytes).length
  {
    FrontIsEncoded(c, bytes);
  }

  lemma SkipIsUnit(c: Codec, bytes: seq<Byte>)
    requires bytes != [] && FrontOf(c, bytes).Malformed?
    ensures FrontOf(c, bytes).skip == UnitBytes(c)
  {
  }

  lemma WholeIsUnique(c: Codec, bytes: seq<Byte>, u: Scalar, v: Scalar)
    requires StartsWhole(c, bytes, u) && StartsWhole(c, bytes, v)
    ensures u == v
  {
    WholeIsRead(c, bytes, u);
    WholeIsRead(c, bytes, v);
  }

  lemma OnlyWhole(c: Codec, bytes: seq<Byte>, v: Scalar)
    requires StartsWhole(c, bytes, v)
    ensures forall u: Scalar :: StartsWhole(c, bytes, u) ==> u == v
  {
    forall u: Scalar | StartsWhole(c, bytes, u)
      ensures u == v
    {
      WholeIsUnique(c, bytes, u, v);
    }
  }

  lemma RunsOutPastWhole(c: Codec, bytes: seq<Byte>, left: seq<Byte>, v: Scalar, rest: seq<Byte>)
    requires bytes != [] && StartsWhole(c, bytes, v) && Width(c, v) <= |bytes| && rest == bytes[Width(c, v)..]
    ensures RunsOut(c, bytes, left) <==> RunsOut(c, rest, left)
  {
    OnlyWhole(c, bytes, v);
  }

  lemma NothingWhole(c: Codec, bytes: seq<Byte>)
    requires bytes != [] && !FrontOf(c, bytes).Char?
    ensures !exists v: Scalar :: StartsWhole(c, bytes, v)
  {
    if v: Scalar :| StartsWhole(c, bytes, v) {
      WholeIsRead(c, bytes, v);
    }
  }

  lemma RunsOutHere(c: Codec, bytes: seq<Byte>, left: seq<Byte>)
    requires bytes != [] && FrontOf(c, bytes).Incomplete?
    ensures RunsOut(c, bytes, left) <==> left == bytes
  {
    NothingWhole(c, bytes);
    IncompleteIsHeldBack(c, bytes);
  }

  lemma NotHeldBack(c: Codec, bytes: seq<Byte>)
    requires bytes != [] && FrontOf(c, bytes).Malformed?
    ensures !IsHeldBack(c, bytes) && UnitBytes(c) <= |bytes|
  {
    IncompleteIffHeldBack(c, bytes);
    SkipIsUnit(c, bytes);
  }

  lemma PastUnit(c: Codec, bytes: seq<Byte>, left: seq<Byte>, rest: seq<Byte>)
    requires bytes != [] && !IsHeldBack(c, bytes) && !exists v: Scalar :: StartsWhole(c, bytes, v)
    requires UnitBytes(c) <= |bytes| && rest == bytes[UnitBytes(c)..]
    ensures RunsOut(c, bytes, left) <==> RunsOut(c, rest, left)
  {
  }

  lemma RunsOutPastUnit(c: Codec, bytes: seq<Byte>, left: seq<Byte>, rest: seq<Byte>)
    requires bytes != [] && FrontOf(c, bytes).Malformed? && rest == bytes[FrontOf(c, bytes).skip..]
    ensures RunsOut(c, bytes, left) <==> RunsOut(c, rest, left)
  {
    NothingWhole(c, bytes);
    NotHeldBack(c, bytes);
    SkipIsUnit(c, bytes);
    PastUnit(c, bytes, left, rest);
  }

  /** The bytes that are pending. */
  function Pending(c: Codec, bytes: seq<Byte>): (left: seq<Byte>)
  {
    bytes[|bytes| - PendingBytes(c, bytes)..]
  }

  lemma PendingBytesPast(c: Codec, bytes: seq<Byte>, k: nat, rest: seq<Byte>)
    requires bytes != [] && !FrontOf(c, bytes).Incomplete? && k <= |bytes| && rest == bytes[k..]
    requires k == if FrontOf(c, bytes).Char? then FrontOf(c, bytes).length else FrontOf(c, bytes).skip
    ensures PendingBytes(c, bytes) == PendingBytes(c, rest)
  {
  }

  lemma LastOfRest(bytes: seq<Byte>, k: nat, rest: seq<Byte>, n: nat)
    requires k <= |bytes| && rest == bytes[k..] && n <= |rest|
    ensures rest[|rest| - n..] == bytes[|bytes| - n..]
  {
  }

  lemma PendingPast(c: Codec, bytes: seq<Byte>, k: nat, rest: seq<Byte>)
    requires bytes != [] && !FrontOf(c, bytes).Incomplete? && k <= |bytes| && rest == bytes[k..]
    requires k == if FrontOf(c, bytes).Char? then FrontOf(c, bytes).length else FrontOf(c, bytes).skip
    ensures Pending(c, bytes) == Pending(c, rest) && PendingBytes(c, bytes) == PendingBytes(c, rest)
  {
    PendingBytesPast(c, bytes, k, rest);
    LastOfRest(bytes, k, rest, PendingBytes(c, rest));
  }

  lemma PendingHere(c: Codec, bytes: seq<Byte>)
    requires bytes != [] && FrontOf(c, bytes).Incomplete?
    ensures Pending(c, bytes) == bytes && PendingBytes(c, bytes) == |bytes|
  {
    DropNothing(bytes);
  }

  /** Reading leaves exactly what is pending, and nothing else: it runs out in one place. */
  lemma {:induction false} PendingIsWhatIsLeft(c: Codec, bytes: seq<Byte>, left: seq<Byte>)
    ensures RunsOut(c, bytes, left) <==> left == Pending(c, bytes)
    decreases |bytes|
  {
    if bytes != [] {
      var f := FrontOf(c, bytes);
      if f.Incomplete? {
        RunsOutHere(c, bytes, left);
        PendingHere(c, bytes);
      } else {
        var k := if f.Char? then f.length else f.skip;
        var rest := bytes[k..];
        PendingIsWhatIsLeft(c, rest, left);
        PendingPast(c, bytes, k, rest);
        RunsOutPast(c, bytes, left, k, rest);
      }
    }
  }

  lemma RunsOutPast(c: Codec, bytes: seq<Byte>, left: seq<Byte>, k: nat, rest: seq<Byte>)
    requires bytes != [] && !FrontOf(c, bytes).Incomplete? && k <= |bytes| && rest == bytes[k..]
    requires k == if FrontOf(c, bytes).Char? then FrontOf(c, bytes).length else FrontOf(c, bytes).skip
    ensures RunsOut(c, bytes, left) <==> RunsOut(c, rest, left)
  {
    if FrontOf(c, bytes).Char? {
      ReadIsWhole(c, bytes);
      RunsOutPastWhole(c, bytes, left, FrontOf(c, bytes).value, rest);
    } else {
      RunsOutPastUnit(c, bytes, left, rest);
    }
  }

  lemma IncompleteIsShort(c: Codec, bytes: seq<Byte>)
    requires bytes != [] && FrontOf(c, bytes).Incomplete?
    ensures |bytes| <= 3
  {
  }

  /** At most three bytes are pending, and they are none or held back. */
  lemma {:induction false} PendingIsHeldBack(c: Codec, bytes: seq<Byte>)
    ensures PendingBytes(c, bytes) <= 3
    ensures Pending(c, bytes) == [] || IsHeldBack(c, Pending(c, bytes))
    decreases |bytes|
  {
    if bytes != [] {
      var f := FrontOf(c, bytes);
      if f.Incomplete? {
        PendingHere(c, bytes);
        IncompleteIsShort(c, bytes);
        IncompleteIsHeldBack(c, bytes);
      } else {
        var k := if f.Char? then f.length else f.skip;
        PendingPast(c, bytes, k, bytes[k..]);
        PendingIsHeldBack(c, bytes[k..]);
      }
    }
  }

  // -------------------------------------------------------- what the trim leaves

  lemma {:induction false} PendingBehindText(c: Codec, text: seq<Scalar>, partial: seq<Byte>)
    requires partial == [] || IsHeldBack(c, partial)
    ensures Pending(c, Encode(c, text) + partial) == partial
  {
    if text == [] {
      assert Encode(c, text) + partial == partial;
      if partial != [] {
        HeldBackIsIncomplete(c, partial);
        PendingHere(c, partial);
      }
    } else {
      var rest := Encode(c, text[1..]) + partial;
      EncodeFirst(c, text, partial);
      FrontOfEncoded(c, text[0], rest);
      DropFromConcat(EncodeScalar(c, text[0]), rest, |EncodeScalar(c, text[0])|);
      DropNothing(rest);
      PendingPast(c, EncodeScalar(c, text[0]) + rest, Width(c, text[0]), rest);
      PendingBehindText(c, text[1..], partial);
    }
  }

  /** Some bytes are whole code points, followed by nothing or by what a decoder waits on. */
  ghost predicate IsText(c: Codec, bytes: seq<Byte>, text: seq<Scalar>, partial: seq<Byte>)
  {
    bytes == Encode(c, text) + partial && (partial == [] || IsHeldBack(c, partial))
  }

  lemma DecodedIsText(c: Codec, bytes: seq<Byte>, kept: seq<Byte>, left: seq<Byte>)
    requires bytes == kept + left && left == Pending(c, bytes) && Decode(c, kept).Some?
    ensures IsText(c, bytes, Decode(c, kept).value, left)
  {
    EncodeDecode(c, kept);
    PendingIsHeldBack(c, bytes);
  }

  lemma TextIsKept(c: Codec, bytes: seq<Byte>, text: seq<Scalar>, partial: seq<Byte>)
    requires IsText(c, bytes, text, partial)
    ensures Pending(c, bytes) == partial && |partial| == PendingBytes(c, bytes)
    ensures bytes[..|bytes| - |partial|] == Encode(c, text)
  {
    PendingBehindText(c, text, partial);
    TakeFront(Encode(c, text), partial);
  }

  lemma TakeFront(front: seq<Byte>, back: seq<Byte>)
    ensures (front + back)[..|front + back| - |back|] == front
  {
  }

  lemma TakeAndDrop(bytes: seq<Byte>, n: nat)
    requires n <= |bytes|
    ensures bytes == bytes[..|bytes| - n] + bytes[|bytes| - n..]
  {
  }

  /** Some bytes without their pending ones decode strictly exactly if nothing in them is ill formed. */
  lemma TrimmedDecodesIff(c: Codec, bytes: seq<Byte>)
    ensures Decode(c, bytes[..|bytes| - PendingBytes(c, bytes)]).Some? <==>
      exists text: seq<Scalar>, partial: seq<Byte> :: IsText(c, bytes, text, partial)
  {
    var kept := bytes[..|bytes| - PendingBytes(c, bytes)];
    TakeAndDrop(bytes, PendingBytes(c, bytes));
    if Decode(c, kept).Some? {
      DecodedIsText(c, bytes, kept, Pending(c, bytes));
    }
    if text: seq<Scalar>, partial: seq<Byte> :| IsText(c, bytes, text, partial) {
      TextIsKept(c, bytes, text, partial);
      DecodeEncode(c, text);
    }
  }

  // --------------------------------------------------------------- the front edge

  /** The stream position of `tail[i]` starts a code unit. */
  predicate OnUnit(c: Codec, offset: nat, i: nat)
  {
    match c
    case Utf8 => true
    case Utf16(_) => (offset + i) % 2 == 0
    case Utf32(_) => (offset + i) % 4 == 0
  }

  /** What stands at `tail[i]` cannot start a code point, whatever follows. */
  predicate IsInterior(c: Codec, tail: seq<Byte>, i: nat)
    requires i < |tail|
  {
    match c
    case Utf8 => IsContinuation(tail[i])
    case Utf16(little) => i + 2 <= |tail| && IsLowSurrogate(ReadUnit16(little, tail[i..]))
    case Utf32(_) => false
  }

  /**
   Where a tail of any bytes that starts at stream position `offset` should start to be read:
   at the first unit that is not the inside of a code point, giving up after three bytes.
   */
  predicate IsFrontEdge(c: Codec, tail: seq<Byte>, offset: nat, cut: nat)
  {
    && cut <= |tail| && cut <= 3
    && (cut < |tail| ==> OnUnit(c, offset, cut))
    && (forall i :: 0 <= i < cut && OnUnit(c, offset, i) ==> IsInterior(c, tail, i))
    && (cut < |tail| && IsInterior(c, tail, cut) ==> cut >= 4 - UnitBytes(c))
  }

  lemma Utf8EdgeIff(tail: seq<Byte>, offset: nat, cut: nat)
    ensures IsFrontEdge(Utf8, tail, offset, cut) <==> cut == LeadingTrim(tail, Utf8, offset)
  {
    var limit := Min(|tail|, 3);
    ContinuationRunStops(tail, limit);
    if IsFrontEdge(Utf8, tail, offset, cut) {
      forall i | 0 <= i < cut
        ensures IsContinuation(tail[i])
      {
        assert OnUnit(Utf8, offset, i) && IsInterior(Utf8, tail, i);
      }
      ContinuationRunIs(tail, limit, cut);
    }
  }

  lemma {:induction false} ContinuationRunStops(tail: seq<Byte>, limit: nat)
    requires limit <= |tail|
    ensures
      var n := ContinuationRun(tail, limit);
      && (forall i :: 0 <= i < n ==> IsContinuation(tail[i]))
      && (n < limit ==> !IsContinuation(tail[n]))
    decreases limit
  {
    if limit > 0 && IsContinuation(tail[0]) {
      ContinuationRunStops(tail[1..], limit - 1);
      var n := ContinuationRun(tail[1..], limit - 1);
      assert forall i :: 0 < i <= n ==> tail[i] == tail[1..][i - 1];
    }
  }

  lemma LowSurrogateBytes(little: bool, tail: seq<Byte>, i: nat)
    requires i < |tail|
    ensures IsInterior(Utf16(little), tail, i) <==> StartsWithLowSurrogate(tail, i, Utf16(little))
  {
    if i + 2 <= |tail| {
      assert tail[i..][0] == tail[i] && tail[i..][1] == tail[i + 1];
    }
  }

  lemma Utf16EdgeIff(little: bool, tail: seq<Byte>, offset: nat, cut: nat)
    ensures IsFrontEdge(Utf16(little), tail, offset, cut) <==> cut == LeadingTrim(tail, Utf16(little), offset)
  {
    var c := Utf16(little);
    var first := offset % 2;
    if first < |tail| {
      LowSurrogateBytes(little, tail, first);
      assert OnUnit(c, offset, first);
    }
    if first + 2 < |tail| {
      assert OnUnit(c, offset, first + 2);
    }
  }

  lemma Utf32EdgeIff(little: bool, tail: seq<Byte>, offset: nat, cut: nat)
    ensures IsFrontEdge(Utf32(little), tail, offset, cut) <==> cut == LeadingTrim(tail, Utf32(little), offset)
  {
    var c := Utf32(little);
    var first := ToNextUnit(c, offset);
    assert OnUnit(c, offset, first);
    assert forall i :: 0 <= i < first ==> !OnUnit(c, offset, i);
  }

  /** The leading trim of any bytes stops exactly at their front edge. */
  lemma FrontEdgeIff(c: Codec, tail: seq<Byte>, offset: nat, cut: nat)
    ensures IsFrontEdge(c, tail, offset, cut) <==> cut == LeadingTrim(tail, c, offset)
  {
    match c
    case Utf8 => Utf8EdgeIff(tail, offset, cut);
    case Utf16(little) => Utf16EdgeIff(little, tail, offset, cut);
    case Utf32(little) => Utf32EdgeIff(little, tail, offset, cut);
  }

  /**
   The trim of any bytes, well formed or not: what stands before the front edge goes, and
   what is left where reading from there runs out, and nothing from the middle.
   */
  lemma TrimTakesTheEdges(c: Codec, tail: seq<Byte>, offset: nat, cut: nat, left: seq<Byte>)
    requires IsFrontEdge(c, tail, offset, cut) && RunsOut(c, tail[cut..], left)
    ensures tail == tail[..cut] + TrimToCodePoint(tail, c, offset) + left
    ensures |left| <= 3 && (left == [] || IsHeldBack(c, left))
  {
    var retained := tail[cut..];
    FrontEdgeIff(c, tail, offset, cut);
    PendingIsWhatIsLeft(c, retained, left);
    PendingIsHeldBack(c, retained);
    TrimIsSlice(c, tail, offset, cut, retained, left);
  }

  lemma TrimIsSlice(c: Codec, tail: seq<Byte>, offset: nat, cut: nat, retained: seq<Byte>, left: seq<Byte>)
    requires cut == LeadingTrim(tail, c, offset) && retained == tail[cut..] && left == Pending(c, retained)
    ensures tail == tail[..cut] + TrimToCodePoint(tail, c, offset) + left && |left| == PendingBytes(c, retained)
  {
    CutAtEdges(tail, cut, retained, PendingBytes(c, retained), TrimToCodePoint(tail, c, offset), left);
  }

  lemma CutAtEdges(tail: seq<Byte>, cut: nat, retained: seq<Byte>, n: nat, kept: seq<Byte>, left: seq<Byte>)
    requires cut + n <= |tail| && retained == tail[cut..]
    requires kept == retained[..|retained| - n] && left == retained[|retained| - n..]
    ensures tail == tail[..cut] + kept + left
  {
    assert retained == kept + left;
    assert tail == tail[..cut] + retained;
    ConcatAssociative(tail[..cut], kept, left);
  }
}
