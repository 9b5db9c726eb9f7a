/**
 The encodings a capture can be decoded with, over sequences of Unicode scalar
 values: UTF-8 (sections 3 and 4 of RFC 3629), UTF-16 (sections 2.1 and 2.2 of
 RFC 2781) and UTF-32, with the byte order fixed.
 */
module Unicode {
  import opened Prelude

  /** A Unicode scalar value: any code point except the surrogates. */
  type Scalar = n: int | 0 <= n < 0xD800 || 0xE000 <= n < 0x110000

  /** A codec whose byte order is already settled. */
  datatype Codec = Utf8 | Utf16(little: bool) | Utf32(little: bool)

  const BYTE_ORDER_MARK: Scalar := 0xFEFF

  // ---------------------------------------------------------------- encoding

  /** Two bytes holding one 16-bit unit. */
  function Unit16(little: bool, u: int): (bytes: seq<Byte>)
    requires 0 <= u < 0x10000
  {
    if little then [u % 256, u / 256] else [u / 256, u % 256]
  }

  /** Four bytes holding one 32-bit unit. */
  function Unit32(little: bool, u: int): (bytes: seq<Byte>)
    requires 0 <= u < 0x110000
  {
    if little then [u % 256, u / 256 % 256, u / 256 / 256, 0]
    else [0, u / 256 / 256, u / 256 % 256, u % 256]
  }

  function EncodeUtf8(v: Scalar): (bytes: seq<Byte>)
  {
    if v < 0x80 then [v]
    else if v < 0x800 then [0xC0 + v / 64, 0x80 + v % 64]
    else if v < 0x10000 then [0xE0 + v / 64 / 64, 0x80 + v / 64 % 64, 0x80 + v % 64]
    else [0xF0 + v / 64 / 64 / 64, 0x80 + v / 64 / 64 % 64, 0x80 + v / 64 % 64, 0x80 + v % 64]
  }

  function EncodeUtf16(little: bool, v: Scalar): (bytes: seq<Byte>)
  {
    if v < 0x10000 then Unit16(little, v)
    else Unit16(little, 0xD800 + (v - 0x10000) / 1024) + Unit16(little, 0xDC00 + (v - 0x10000) % 1024)
  }

  /** How many bytes one code point occupies. */
  function Width(c: Codec, v: Scalar): (n: nat)
    ensures 1 <= n <= 4
  {
    match c
    case Utf8 => if v < 0x80 then 1 else if v < 0x800 then 2 else if v < 0x10000 then 3 else 4
    case Utf16(_) => if v < 0x10000 then 2 else 4
    case Utf32(_) => 4
  }

  /** The bytes one code point occupies. */
  function EncodeScalar(c: Codec, v: Scalar): (bytes: seq<Byte>)
    ensures |bytes| == Width(c, v)
  {
    match c
    case Utf8 => EncodeUtf8(v)
    case Utf16(little) => EncodeUtf16(little, v)
    case Utf32(little) => Unit32(little, v)
  }

  /** The bytes a whole text occupies. */
  function Encode(c: Codec, text: seq<Scalar>): (bytes: seq<Byte>)
  {
    if text == [] then [] else EncodeScalar(c, text[0]) + Encode(c, text[1..])
  }

  // ---------------------------------------------------------------- decoding

  /** What a decoder sees at the front of some bytes. */
  datatype Front =
    | Char(value: Scalar, length: nat)
    | Incomplete
    | Malformed(skip: nat)

  predicate IsContinuation(b: Byte) { 0x80 <= b < 0xC0 }

  /** How many bytes the code point led by `b` takes; 0 when no code point starts so. */
  function Utf8Width(b: Byte): (n: nat)
  {
    if b < 0x80 then 1
    else if b < 0xC2 then 0
    else if b < 0xE0 then 2
    else if b < 0xF0 then 3
    else if b < 0xF5 then 4
    else 0
  }

  /** The second-byte ranges of the syntax in section 4 of RFC 3629. */
  predicate Utf8SecondByteOk(lead: Byte, second: Byte)
  {
    if lead == 0xE0 then 0xA0 <= second < 0xC0
    else if lead == 0xED then 0x80 <= second < 0xA0
    else if lead == 0xF0 then 0x90 <= second < 0xC0
    else if lead == 0xF4 then 0x80 <= second < 0x90
    else IsContinuation(second)
  }

  /** Whether `bytes[..n]` is the start of the code point its lead byte announces. */
  predicate Utf8PrefixOk(bytes: seq<Byte>, n: nat)
    requires 1 <= n <= |bytes|
  {
    && (n >= 2 ==> Utf8SecondByteOk(bytes[0], bytes[1]))
    && (n >= 3 ==> IsContinuation(bytes[2]))
    && (n >= 4 ==> IsContinuation(bytes[3]))
  }

  /** Appends the six payload bits of a continuation byte. */
  function Extend(high: int, b: Byte): (u: int) { 64 * high + (b as int - 0x80) }

  function FrontUtf8(bytes: seq<Byte>): (f: Front)
    requires bytes != []
  {
    var width := Utf8Width(bytes[0]);
    if width == 0 then Malformed(1)
    else if |bytes| < width then
      if Utf8PrefixOk(bytes, |bytes|) then Incomplete else Malformed(1)
    else if !Utf8PrefixOk(bytes, width) then Malformed(1)
    else if width == 1 then Char(bytes[0], 1)
    else if width == 2 then Char(Extend(bytes[0] - 0xC0, bytes[1]), 2)
    else if width == 3 then Char(Extend(Extend(bytes[0] - 0xE0, bytes[1]), bytes[2]), 3)
    else Char(Extend(Extend(Extend(bytes[0] - 0xF0, bytes[1]), bytes[2]), bytes[3]), 4)
  }

  function ReadUnit16(little: bool, bytes: seq<Byte>): (u: int)
    requires |bytes| >= 2
    ensures 0 <= u < 0x10000
  {
    if little then bytes[0] as int + 256 * bytes[1] as int else 256 * bytes[0] as int + bytes[1] as int
  }

  predicate IsHighSurrogate(u: int) { 0xD800 <= u < 0xDC00 }

  predicate IsLowSurrogate(u: int) { 0xDC00 <= u < 0xE000 }

  function FrontUtf16(little: bool, bytes: seq<Byte>): (f: Front)
    requires bytes != []
  {
    if |bytes| < 2 then Incomplete
    else
      var first := ReadUnit16(little, bytes);
      if IsLowSurrogate(first) then Malformed(2)
      else if !IsHighSurrogate(first) then Char(first, 2)
      else if |bytes| < 4 then Incomplete
      else
        var second := ReadUnit16(little, bytes[2..]);
        if !IsLowSurrogate(second) then Malformed(2)
        else Char(0x10000 + (first - 0xD800) * 1024 + (second - 0xDC00), 4)
  }

  function ReadUnit32(little: bool, bytes: seq<Byte>): (u: int)
    requires |bytes| >= 4
  {
    if little then
      bytes[0] as int + 256 * (bytes[1] as int + 256 * (bytes[2] as int + 256 * bytes[3] as int))
    else
      bytes[3] as int + 256 * (bytes[2] as int + 256 * (bytes[1] as int + 256 * bytes[0] as int))
  }

  function FrontUtf32(little: bool, bytes: seq<Byte>): (f: Front)
    requires bytes != []
  {
    if |bytes| < 4 then Incomplete
    else
      var u := ReadUnit32(little, bytes);
      if 0 <= u < 0xD800 || 0xE000 <= u < 0x110000 then Char(u, 4) else Malformed(4)
  }

  /** What the decoder for `c` sees at the front of `bytes`. */
  function FrontOf(c: Codec, bytes: seq<Byte>): (f: Front)
    requires bytes != []
    ensures f.Char? ==> 0 < f.length <= |bytes|
    ensures f.Malformed? ==> 0 < f.skip <= |bytes|
  {
    match c
    case Utf8 => FrontUtf8(bytes)
    case Utf16(little) => FrontUtf16(little, bytes)
    case Utf32(little) => FrontUtf32(little, bytes)
  }

  /** Strict decoding of a whole byte sequence: `None` is the decoder's error. */
  function Decode(c: Codec, bytes: seq<Byte>): (text: Option<seq<Scalar>>)
  {
    if bytes == [] then Some([])
    else
      match FrontOf(c, bytes)
      case Char(v, n) =>
        (match Decode(c, bytes[n..])
         case Some(rest) => Some([v] + rest)
         case None => None)
      case Incomplete => None
      case Malformed(_) => None
  }

  // ------------------------------------------------- one code point at a time

  lemma FrontOfEncodedUtf8(v: Scalar, rest: seq<Byte>)
    ensures FrontUtf8(EncodeUtf8(v) + rest) == Char(v, |EncodeUtf8(v)|)
  {
    var e := EncodeUtf8(v);
    assert forall i :: 0 <= i < |e| ==> (e + rest)[i] == e[i];
  }

  lemma FrontOfEncodedUtf16(little: bool, v: Scalar, rest: seq<Byte>)
    ensures FrontUtf16(little, EncodeUtf16(little, v) + rest) == Char(v, |EncodeUtf16(little, v)|)
  {
    var bytes := EncodeUtf16(little, v) + rest;
    if v >= 0x10000 {
      assert bytes[2..][..2] == Unit16(little, 0xDC00 + (v - 0x10000) % 1024);
    }
  }

  /** A decoder reads back the code point an encoder put at the front. */
  lemma FrontOfEncoded(c: Codec, v: Scalar, rest: seq<Byte>)
    ensures FrontOf(c, EncodeScalar(c, v) + rest) == Char(v, |EncodeScalar(c, v)|)
  {
    match c
    case Utf8 => FrontOfEncodedUtf8(v, rest);
    case Utf16(little) => FrontOfEncodedUtf16(little, v, rest);
    case Utf32(little) =>
  }

  lemma ExtendSplits(high: int, b: Byte)
    requires IsContinuation(b)
    ensures Extend(high, b) / 64 == high && 0x80 + Extend(high, b) % 64 == b
  {
  }

  lemma FrontUtf8IsEncoded(bytes: seq<Byte>)
    requires bytes != [] && FrontUtf8(bytes).Char?
    ensures bytes[..FrontUtf8(bytes).length] == EncodeUtf8(FrontUtf8(bytes).value)
  {
    var f := FrontUtf8(bytes);
    var lead := bytes[0] as int;
    if f.length == 2 {
      ExtendSplits(lead - 0xC0, bytes[1]);
    } else if f.length == 3 {
      ExtendSplits(lead - 0xE0, bytes[1]);
      ExtendSplits(Extend(lead - 0xE0, bytes[1]), bytes[2]);
    } else if f.length == 4 {
      ExtendSplits(lead - 0xF0, bytes[1]);
      ExtendSplits(Extend(lead - 0xF0, bytes[1]), bytes[2]);
      ExtendSplits(Extend(Extend(lead - 0xF0, bytes[1]), bytes[2]), bytes[3]);
    }
  }

  lemma ReadIsUnit16(little: bool, bytes: seq<Byte>)
    requires |bytes| >= 2
    ensures bytes[..2] == Unit16(little, ReadUnit16(little, bytes))
  {
  }

  /** The scalar value of a surrogate pair splits back into the pair. */
  lemma PairSplits(first: int, second: int)
    requires IsHighSurrogate(first) && IsLowSurrogate(second)
    ensures
      var v := 0x10000 + (first - 0xD800) * 1024 + (second - 0xDC00);
      && 0x10000 <= v < 0x110000
      && 0xD800 + (v - 0x10000) / 1024 == first && 0xDC00 + (v - 0x10000) % 1024 == second
  {
  }

  lemma FrontUtf16IsEncoded(little: bool, bytes: seq<Byte>)
    requires bytes != [] && FrontUtf16(little, bytes).Char?
    ensures bytes[..FrontUtf16(little, bytes).length] == EncodeUtf16(little, FrontUtf16(little, bytes).value)
  {
    ReadIsUnit16(little, bytes);
    if FrontUtf16(little, bytes).length == 4 {
      ReadIsUnit16(little, bytes[2..]);
      PairSplits(ReadUnit16(little, bytes), ReadUnit16(little, bytes[2..]));
      assert bytes[..4] == bytes[..2] + bytes[2..][..2];
    }
  }

  lemma Base256Digits(d0: Byte, d1: Byte, d2: Byte, d3: Byte)
    ensures
      var high := d2 as int + 256 * d3 as int;
      var u := d0 as int + 256 * (d1 as int + 256 * high);
      && u % 256 == d0 && u / 256 % 256 == d1 && u / 256 / 256 == high
      && (u < 0x110000 ==> d3 == 0)
  {
    var middle := d1 as int + 256 * (d2 as int + 256 * d3 as int);
    assert (d0 as int + 256 * middle) / 256 == middle;
  }

  lemma FrontUtf32IsEncoded(little: bool, bytes: seq<Byte>)
    requires bytes != [] && FrontUtf32(little, bytes).Char?
    ensures bytes[..4] == Unit32(little, FrontUtf32(little, bytes).value)
  {
    if little {
      Base256Digits(bytes[0], bytes[1], bytes[2], bytes[3]);
    } else {
      Base256Digits(bytes[3], bytes[2], bytes[1], bytes[0]);
    }
  }

  /** A code point a decoder accepts is spelled the one way the encoder spells it. */
  lemma FrontIsEncoded(c: Codec, bytes: seq<Byte>)
    requires bytes != [] && FrontOf(c, bytes).Char?
    ensures bytes[..FrontOf(c, bytes).length] == EncodeScalar(c, FrontOf(c, bytes).value)
  {
    match c
    case Utf8 => FrontUtf8IsEncoded(bytes);
    case Utf16(little) => FrontUtf16IsEncoded(little, bytes);
    case Utf32(little) => FrontUtf32IsEncoded(little, bytes);
  }

  /** A proper, non-empty start of an encoded code point is what a decoder holds back. */
  lemma FrontOfPartial(c: Codec, v: Scalar, n: nat)
    requires 0 < n < |EncodeScalar(c, v)|
    ensures FrontOf(c, EncodeScalar(c, v)[..n]).Incomplete?
  {
    var start := EncodeScalar(c, v)[..n];
    assert start[0] == EncodeScalar(c, v)[0];
    if n >= 2 {
      assert start[1] == EncodeScalar(c, v)[1];
    }
  }

  // ------------------------------------------------- the forms of the standards

  /** The payload of a continuation byte. */
  function Six(b: Byte): int { b as int - 0x80 }

  /** The table in section 3 of RFC 3629: which bytes carry `v`, shortest form only. */
  predicate IsUtf8Form(v: Scalar, b: seq<Byte>)
  {
    if v < 0x80 then b == [v]
    else if v < 0x800 then
      |b| == 2 && IsContinuation(b[1]) && v == 64 * (b[0] as int - 0xC0) + Six(b[1])
    else if v < 0x10000 then
      && |b| == 3 && IsContinuation(b[1]) && IsContinuation(b[2])
      && v == 4096 * (b[0] as int - 0xE0) + 64 * Six(b[1]) + Six(b[2])
    else
      && |b| == 4 && IsContinuation(b[1]) && IsContinuation(b[2]) && IsContinuation(b[3])
      && v == 262144 * (b[0] as int - 0xF0) + 4096 * Six(b[1]) + 64 * Six(b[2]) + Six(b[3])
  }

  /** Two bytes read as one number, the second more significant when `little`. */
  function Number16(little: bool, b0: Byte, b1: Byte): int
  {
    if little then b0 as int + 256 * b1 as int else 256 * b0 as int + b1 as int
  }

  /** Section 2.1 of RFC 2781: one unit below 0x10000, and from there on a surrogate pair. */
  predicate IsUtf16Form(little: bool, v: Scalar, b: seq<Byte>)
  {
    if v < 0x10000 then |b| == 2 && v == Number16(little, b[0], b[1])
    else
      && |b| == 4
      && var (high, low) := (Number16(little, b[0], b[1]), Number16(little, b[2], b[3]));
         0xDC00 <= low < 0xE000 && v - 0x10000 == 1024 * (high - 0xD800) + (low - 0xDC00)
  }

  predicate IsUtf32Form(little: bool, v: Scalar, b: seq<Byte>)
  {
    && |b| == 4
    && v == if little then b[0] as int + 256 * b[1] as int + 65536 * b[2] as int + 16777216 * b[3] as int
            else b[3] as int + 256 * b[2] as int + 65536 * b[1] as int + 16777216 * b[0] as int
  }

  predicate IsForm(c: Codec, v: Scalar, b: seq<Byte>)
  {
    match c
    case Utf8 => IsUtf8Form(v, b)
    case Utf16(little) => IsUtf16Form(little, v, b)
    case Utf32(little) => IsUtf32Form(little, v, b)
  }

  lemma Digits64(v: nat, high: int, low: int)
    requires 0 <= low < 64
    ensures v == 64 * high + low <==> high == v / 64 && low == v % 64
  {
  }

  lemma TwoByteForm(v: Scalar, b: seq<Byte>)
    requires 0x80 <= v < 0x800
    ensures IsUtf8Form(v, b) <==> b == EncodeUtf8(v)
  {
    if |b| == 2 && IsContinuation(b[1]) {
      Digits64(v, b[0] as int - 0xC0, Six(b[1]));
    }
  }

  lemma ThreeByteForm(v: Scalar, b: seq<Byte>)
    requires 0x800 <= v < 0x10000
    ensures IsUtf8Form(v, b) <==> b == EncodeUtf8(v)
  {
    if |b| == 3 && IsContinuation(b[1]) && IsContinuation(b[2]) {
      Digits64(v, 64 * (b[0] as int - 0xE0) + Six(b[1]), Six(b[2]));
      Digits64(v / 64, b[0] as int - 0xE0, Six(b[1]));
    }
  }

  lemma FourByteForm(v: Scalar, b: seq<Byte>)
    requires 0x10000 <= v
    ensures IsUtf8Form(v, b) <==> b == EncodeUtf8(v)
  {
    if |b| == 4 && IsContinuation(b[1]) && IsContinuation(b[2]) && IsContinuation(b[3]) {
      Digits64(v, 4096 * (b[0] as int - 0xF0) + 64 * Six(b[1]) + Six(b[2]), Six(b[3]));
      Digits64(v / 64, 64 * (b[0] as int - 0xF0) + Six(b[1]), Six(b[2]));
      Digits64(v / 64 / 64, b[0] as int - 0xF0, Six(b[1]));
    }
  }

  lemma Utf8FormIff(v: Scalar, b: seq<Byte>)
    ensures IsUtf8Form(v, b) <==> b == EncodeUtf8(v)
  {
    if v < 0x80 {
    } else if v < 0x800 {
      TwoByteForm(v, b);
    } else if v < 0x10000 {
      ThreeByteForm(v, b);
    } else {
      FourByteForm(v, b);
    }
  }

  lemma UnitForm(little: bool, u: int, b0: Byte, b1: Byte)
    requires 0 <= u < 0x10000
    ensures u == Number16(little, b0, b1) <==> [b0, b1] == Unit16(little, u)
  {
  }

  lemma Digits1024(v: int, high: int, low: int)
    requires 0x10000 <= v < 0x110000 && 0xDC00 <= low < 0xE000
    ensures v - 0x10000 == 1024 * (high - 0xD800) + (low - 0xDC00)
       <==> high == 0xD800 + (v - 0x10000) / 1024 && low == 0xDC00 + (v - 0x10000) % 1024
  {
  }

  lemma PairForm(little: bool, v: Scalar, b: seq<Byte>)
    requires 0x10000 <= v && |b| == 4
    ensures IsUtf16Form(little, v, b) <==> b == EncodeUtf16(little, v)
  {
    var (high, low) := (0xD800 + (v - 0x10000) / 1024, 0xDC00 + (v - 0x10000) % 1024);
    UnitForm(little, high, b[0], b[1]);
    UnitForm(little, low, b[2], b[3]);
    var second := Number16(little, b[2], b[3]);
    if 0xDC00 <= second < 0xE000 {
      Digits1024(v, Number16(little, b[0], b[1]), second);
    }
    assert b == [b[0], b[1]] + [b[2], b[3]];
  }

  lemma Utf16FormIff(little: bool, v: Scalar, b: seq<Byte>)
    ensures IsUtf16Form(little, v, b) <==> b == EncodeUtf16(little, v)
  {
    if v >= 0x10000 {
      if |b| == 4 {
        PairForm(little, v, b);
      }
    } else if |b| == 2 {
      UnitForm(little, v, b[0], b[1]);
      assert b == [b[0], b[1]];
    }
  }

  lemma Utf32FormIff(little: bool, v: Scalar, b: seq<Byte>)
    ensures IsUtf32Form(little, v, b) <==> b == Unit32(little, v)
  {
    if |b| == 4 {
      if little {
        Base256Digits(b[0], b[1], b[2], b[3]);
      } else {
        Base256Digits(b[3], b[2], b[1], b[0]);
      }
    }
  }

  /**
   The encoders are those of the standards: the bytes of a code point are the ones that carry its
   value in its one form.
   */
  lemma EncodedIff(c: Codec, v: Scalar, b: seq<Byte>)
    ensures b == EncodeScalar(c, v) <==> IsForm(c, v, b)
  {
    match c
    case Utf8 => Utf8FormIff(v, b);
    case Utf16(little) => Utf16FormIff(little, v, b);
    case Utf32(little) => Utf32FormIff(little, v, b);
  }

  // ---------------------------------------------------------- whole sequences

  lemma {:induction false} EncodeConcat(c: Codec, s: seq<Scalar>, t: seq<Scalar>)
    ensures Encode(c, s + t) == Encode(c, s) + Encode(c, t)
  {
    if s == [] {
      assert s + t == t;
    } else {
      EncodeConcat(c, s[1..], t);
      DropWithinFront(s, t, 1);
      ConcatAssociative(EncodeScalar(c, s[0]), Encode(c, s[1..]), Encode(c, t));
    }
  }

  /** Decoding undoes encoding, for every text. */
  lemma {:induction false} DecodeEncode(c: Codec, text: seq<Scalar>)
    ensures Decode(c, Encode(c, text)) == Some(text)
  {
    if text != [] {
      var e := EncodeScalar(c, text[0]);
      FrontOfEncoded(c, text[0], Encode(c, text[1..]));
      assert (e + Encode(c, text[1..]))[|e|..] == Encode(c, text[1..]);
      DecodeEncode(c, text[1..]);
      assert text == [text[0]] + text[1..];
    }
  }

  /** Encoding undoes decoding: a valid stream has exactly one spelling. */
  lemma {:induction false} EncodeDecode(c: Codec, bytes: seq<Byte>)
    requires Decode(c, bytes).Some?
    ensures Encode(c, Decode(c, bytes).value) == bytes
    decreases |bytes|
  {
    if bytes != [] {
      var f := FrontOf(c, bytes);
      FrontIsEncoded(c, bytes);
      EncodeDecode(c, bytes[f.length..]);
      assert bytes == bytes[..f.length] + bytes[f.length..];
      assert Decode(c, bytes).value[1..] == Decode(c, bytes[f.length..]).value;
    }
  }
}
