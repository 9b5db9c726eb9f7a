/**
 The deterministic base64 fixture: a SHA-256 counter keystream, encoded chunk by chunk
 and wrapped (benchmarks/deterministic_b64_fixture.py). Base64 is that of section 4 of
 RFC 4648; SHA-256 stays an uninterpreted function from bytes to 32 bytes.
 */
module Base64Fixture {
  import opened Prelude

  datatype Result<+T> = Ok(value: T) | ValueError | OverflowError

  type Digest = d: seq<Byte> | |d| == 32 witness seq(32, _ => 0)

  // --------------------------------------------------------------------- base64

  /** The character for a six-bit group. */
  function Symbol(group: int): (c: Byte)
    requires 0 <= group < 64
  {
    if group < 26 then 65 + group
    else if group < 52 then 97 + (group - 26)
    else if group < 62 then 48 + (group - 52)
    else if group == 62 then 43
    else 47
  }

  /** The six-bit group of a character, if it is one of the alphabet. */
  function Group(c: Byte): (group: Option<int>)
    ensures group.Some? ==> 0 <= group.value < 64
  {
    if 65 <= c <= 90 then Some(c - 65)
    else if 97 <= c <= 122 then Some(c - 97 + 26)
    else if 48 <= c <= 57 then Some(c - 48 + 52)
    else if c == 43 then Some(62)
    else if c == 47 then Some(63)
    else None
  }

  const PAD: Byte := '=' as int
  const NEWLINE: Byte := '\n' as int

  /** The four characters of a full quantum, from its six-bit groups. */
  function Quantum(a: Byte, b: Byte, c: Byte): (q: seq<Byte>)
    ensures |q| == 4
  {
    [Symbol(a / 4), Symbol(a % 4 * 16 + b / 16), Symbol(b % 16 * 4 + c / 64), Symbol(c % 64)]
  }

  /** Base64 of a byte string, with padding. */
  function Base64(data: seq<Byte>): (text: seq<Byte>)
  {
    if data == [] then []
    else if |data| == 1 then [Symbol(data[0] / 4), Symbol(data[0] % 4 * 16), PAD, PAD]
    else if |data| == 2 then
      [Symbol(data[0] / 4), Symbol(data[0] % 4 * 16 + data[1] / 16), Symbol(data[1] % 16 * 4), PAD]
    else Quantum(data[0], data[1], data[2]) + Base64(data[3..])
  }

  const UPPER: string := "ABCDEFGHIJKLMNOPQRSTUVWXYZ"
  const LOWER: string := "abcdefghijklmnopqrstuvwxyz"
  const DIGITS: string := "0123456789"

  /** Table 1 of RFC 4648. */
  const ALPHABET: string := UPPER + LOWER + DIGITS + "+/"

  lemma UpperSpelled(group: int)
    requires 0 <= group < 26
    ensures Symbol(group) == UPPER[group] as int
  {
  }

  lemma LowerSpelled(group: int)
    requires 26 <= group < 52
    ensures Symbol(group) == LOWER[group - 26] as int
  {
  }

  lemma DigitSpelled(group: int)
    requires 52 <= group < 62
    ensures Symbol(group) == DIGITS[group - 52] as int
  {
  }

  lemma AlphabetSpelled(group: int)
    requires 0 <= group < 64
    ensures |ALPHABET| == 64 && Symbol(group) == ALPHABET[group] as int
  {
    if group < 26 {
      UpperSpelled(group);
    } else if group < 52 {
      LowerSpelled(group);
    } else if group < 62 {
      DigitSpelled(group);
    }
  }

  /** The 24 bits of a quantum as one number, absent bytes being zero. */
  function Bits(data: seq<Byte>): (n: nat)
    requires 1 <= |data| <= 3
  {
    var b: Byte := if |data| > 1 then data[1] else 0;
    var c: Byte := if |data| > 2 then data[2] else 0;
    65536 * data[0] as int + 256 * b as int + c as int
  }

  /** The four groups of six bits in 24, the most significant first. */
  predicate IsSextets(n: int, g: seq<int>)
  {
    && |g| == 4 && (forall i :: 0 <= i < 4 ==> 0 <= g[i] < 64)
    && n == 262144 * g[0] + 4096 * g[1] + 64 * g[2] + g[3]
  }

  /** There is one way to cut 24 bits so. */
  lemma SextetsAreUnique(n: int, g: seq<int>, h: seq<int>)
    requires IsSextets(n, g) && IsSextets(n, h)
    ensures g == h
  {
    assert g[0] == h[0] && g[1] == h[1] && g[2] == h[2] && g[3] == h[3];
  }

  lemma QuantumSextets(a: Byte, b: Byte, c: Byte)
    ensures IsSextets(65536 * a as int + 256 * b as int + c as int,
              [a / 4, a % 4 * 16 + b / 16, b % 16 * 4 + c / 64, c % 64])
  {
  }

  lemma SextetsOf(a: Byte, b: Byte, c: Byte, g: seq<int>)
    requires IsSextets(65536 * a as int + 256 * b as int + c as int, g)
    ensures g == [a / 4, a % 4 * 16 + b / 16, b % 16 * 4 + c / 64, c % 64]
  {
    QuantumSextets(a, b, c);
    SextetsAreUnique(65536 * a as int + 256 * b as int + c as int, g,
      [a / 4, a % 4 * 16 + b / 16, b % 16 * 4 + c / 64, c % 64]);
  }

  lemma OneByteSymbols(a: Byte, g: seq<int>)
    requires IsSextets(Bits([a]), g)
    ensures Base64([a]) == [Symbol(g[0]), Symbol(g[1]), PAD, PAD]
  {
    SextetsOf(a, 0, 0, g);
  }

  lemma TwoByteSymbols(a: Byte, b: Byte, g: seq<int>)
    requires IsSextets(Bits([a, b]), g)
    ensures Base64([a, b]) == [Symbol(g[0]), Symbol(g[1]), Symbol(g[2]), PAD]
  {
    SextetsOf(a, b, 0, g);
  }

  lemma ThreeByteSymbols(a: Byte, b: Byte, c: Byte, g: seq<int>)
    requires IsSextets(Bits([a, b, c]), g)
    ensures Quantum(a, b, c) == [Symbol(g[0]), Symbol(g[1]), Symbol(g[2]), Symbol(g[3])]
  {
    SextetsOf(a, b, c, g);
  }

  /** A last quantum of one byte: two characters of six bits, then two pads. */
  lemma OneByteSpells(a: Byte, g: seq<int>)
    requires IsSextets(Bits([a]), g)
    ensures |ALPHABET| == 64
    ensures Base64([a]) == [ALPHABET[g[0]] as int, ALPHABET[g[1]] as int, '=' as int, '=' as int]
  {
    OneByteSymbols(a, g);
    AlphabetSpelled(g[0]);
    AlphabetSpelled(g[1]);
  }

  /** A last quantum of two bytes: three characters, then one pad. */
  lemma TwoByteSpells(a: Byte, b: Byte, g: seq<int>)
    requires IsSextets(Bits([a, b]), g)
    ensures |ALPHABET| == 64
    ensures Base64([a, b])
         == [ALPHABET[g[0]] as int, ALPHABET[g[1]] as int, ALPHABET[g[2]] as int, '=' as int]
  {
    TwoByteSymbols(a, b, g);
    AlphabetSpelled(g[0]);
    AlphabetSpelled(g[1]);
    AlphabetSpelled(g[2]);
  }

  lemma ThreeByteLetters(a: Byte, b: Byte, c: Byte, g: seq<int>)
    requires IsSextets(Bits([a, b, c]), g)
    ensures |ALPHABET| == 64
    ensures Quantum(a, b, c)
         == [ALPHABET[g[0]] as int, ALPHABET[g[1]] as int, ALPHABET[g[2]] as int, ALPHABET[g[3]] as int]
  {
    ThreeByteSymbols(a, b, c, g);
    AlphabetSpelled(g[0]);
    AlphabetSpelled(g[1]);
    AlphabetSpelled(g[2]);
    AlphabetSpelled(g[3]);
  }

  /** Section 4 of RFC 4648: three bytes are four characters of six bits each, the most significant first. */
  lemma ThreeBytesSpell(a: Byte, b: Byte, c: Byte, rest: seq<Byte>, g: seq<int>)
    requires IsSextets(Bits([a, b, c]), g)
    ensures |ALPHABET| == 64
    ensures Base64([a, b, c] + rest)
         == [ALPHABET[g[0]] as int, ALPHABET[g[1]] as int, ALPHABET[g[2]] as int, ALPHABET[g[3]] as int] + Base64(rest)
  {
    ThreeByteLetters(a, b, c, g);
    assert ([a, b, c] + rest)[3..] == rest;
  }

  /** One quantum read back: how many bytes the pads say it holds, and which. */
  function DecodeQuantum(q: seq<Byte>): (data: Option<seq<Byte>>)
    requires |q| == 4
  {
    var g := [Group(q[0]), Group(q[1]), Group(q[2]), Group(q[3])];
    if g[0].None? || g[1].None? then None
    else
      var first := g[0].value * 4 + g[1].value / 16;
      if q[2] == PAD then
        if q[3] == PAD then Some([first]) else None
      else if g[2].None? then None
      else
        var second := g[1].value % 16 * 16 + g[2].value / 4;
        if q[3] == PAD then Some([first, second])
        else if g[3].None? then None
        else Some([first, second, g[2].value % 4 * 64 + g[3].value])
  }

  /** Reading base64 back, quantum by quantum. */
  function Unbase64(text: seq<Byte>): (data: Option<seq<Byte>>)
    decreases |text|
  {
    if text == [] then Some([])
    else if |text| < 4 then None
    else
      match (DecodeQuantum(text[..4]), Unbase64(text[4..]))
      case (Some(head), Some(tail)) => Some(head + tail)
      case _ => None
  }

  lemma GroupOfSymbol(group: int)
    requires 0 <= group < 64
    ensures Group(Symbol(group)) == Some(group) && Symbol(group) != PAD && Symbol(group) != NEWLINE
  {
  }

  /** Four groups of six bits as three bytes. */
  lemma FromGroups(g0: int, g1: int, g2: int, g3: int)
    requires 0 <= g0 < 64 && 0 <= g1 < 64 && 0 <= g2 < 64 && 0 <= g3 < 64
    ensures DecodeQuantum([Symbol(g0), Symbol(g1), Symbol(g2), Symbol(g3)])
         == Some([g0 * 4 + g1 / 16, g1 % 16 * 16 + g2 / 4, g2 % 4 * 64 + g3])
  {
    GroupOfSymbol(g0);
    GroupOfSymbol(g1);
    GroupOfSymbol(g2);
    GroupOfSymbol(g3);
  }

  /** The groups of three bytes put back together. */
  lemma Regrouped(a: Byte, b: Byte, c: Byte)
    ensures
      var g1, g2 := a % 4 * 16 + b / 16, b % 16 * 4 + c / 64;
      && 0 <= g1 < 64 && 0 <= g2 < 64
      && a / 4 * 4 + g1 / 16 == a && g1 % 16 * 16 + g2 / 4 == b && g2 % 4 * 64 + c % 64 == c
  {
  }

  lemma GroupsDecode(a: Byte, b: Byte, c: Byte, g0: int, g1: int, g2: int, g3: int)
    requires 0 <= g0 < 64 && 0 <= g1 < 64 && 0 <= g2 < 64 && 0 <= g3 < 64
    requires g0 * 4 + g1 / 16 == a && g1 % 16 * 16 + g2 / 4 == b && g2 % 4 * 64 + g3 == c
    ensures DecodeQuantum([Symbol(g0), Symbol(g1), Symbol(g2), Symbol(g3)]) == Some([a, b, c])
  {
    FromGroups(g0, g1, g2, g3);
  }

  lemma QuantumRoundTrip(a: Byte, b: Byte, c: Byte)
    ensures DecodeQuantum(Quantum(a, b, c)) == Some([a, b, c])
  {
    Regrouped(a, b, c);
    GroupsDecode(a, b, c, a / 4, a % 4 * 16 + b / 16, b % 16 * 4 + c / 64, c % 64);
  }

  lemma OneByteRoundTrip(a: Byte)
    ensures DecodeQuantum(Base64([a])) == Some([a])
  {
    GroupOfSymbol(a / 4);
    GroupOfSymbol(a % 4 * 16);
  }

  lemma TwoByteRoundTrip(a: Byte, b: Byte)
    ensures DecodeQuantum(Base64([a, b])) == Some([a, b])
  {
    GroupOfSymbol(a / 4);
    GroupOfSymbol(a % 4 * 16 + b / 16);
    GroupOfSymbol(b % 16 * 4);
    assert a / 4 * 4 + (a % 4 * 16 + b / 16) / 16 == a;
  }

  lemma SingleQuantum(q: seq<Byte>)
    requires |q| == 4
    ensures Unbase64(q) == DecodeQuantum(q)
  {
    assert q[..4] == q && q[4..] == [];
    if DecodeQuantum(q).Some? {
      assert DecodeQuantum(q).value + [] == DecodeQuantum(q).value;
    }
  }

  lemma QuantumThenRest(q: seq<Byte>, rest: seq<Byte>, head: seq<Byte>, tail: seq<Byte>)
    requires |q| == 4 && DecodeQuantum(q) == Some(head) && Unbase64(rest) == Some(tail)
    ensures Unbase64(q + rest) == Some(head + tail)
  {
    assert (q + rest)[..4] == q && (q + rest)[4..] == rest;
  }

  /** Decoding undoes encoding, for every byte string. */
  lemma {:induction false} Base64RoundTrip(data: seq<Byte>)
    ensures Unbase64(Base64(data)) == Some(data)
    decreases |data|
  {
    if data == [] {
    } else if |data| == 1 {
      assert data == [data[0]];
      OneByteRoundTrip(data[0]);
      SingleQuantum(Base64(data));
    } else if |data| == 2 {
      assert data == [data[0], data[1]];
      TwoByteRoundTrip(data[0], data[1]);
      SingleQuantum(Base64(data));
    } else {
      QuantumRoundTrip(data[0], data[1], data[2]);
      Base64RoundTrip(data[3..]);
      QuantumThenRest(Quantum(data[0], data[1], data[2]), Base64(data[3..]), [data[0], data[1], data[2]], data[3..]);
      assert [data[0], data[1], data[2]] + data[3..] == data;
    }
  }

  /** Cutting after a multiple of three bytes cuts the encoding too. */
  lemma {:induction false} Base64Concat(front: seq<Byte>, back: seq<Byte>)
    requires |front| % 3 == 0
    ensures Base64(front + back) == Base64(front) + Base64(back)
    decreases |front|
  {
    if front == [] {
      assert front + back == back;
    } else {
      Base64Concat(front[3..], back);
      DropWithinFront(front, back, 3);
      ConcatAssociative(Quantum(front[0], front[1], front[2]), Base64(front[3..]), Base64(back));
    }
  }

  lemma {:induction false} Base64Plain(data: seq<Byte>)
    ensures NEWLINE !in Base64(data)
    decreases |data|
  {
    if |data| >= 3 {
      Base64Plain(data[3..]);
    }
  }

  lemma {:induction false} QuantaCount(data: seq<Byte>)
    ensures |Base64(data)| == (|data| + 2) / 3 * 4
    decreases |data|
  {
    if |data| >= 3 {
      QuantaCount(data[3..]);
    }
  }

  lemma Base64Length(data: seq<Byte>)
    ensures |Base64(data)| == (|data| + 2) / 3 * 4
    ensures NEWLINE !in Base64(data)
  {
    Base64Plain(data);
    QuantaCount(data);
  }

  // ------------------------------------------------------------------- wrapping

  /** A text with a newline after every `wrap`-th character; `column` of them are already out. */
  function Wrapped(text: seq<Byte>, wrap: nat, column: nat): (lines: seq<Byte>)
    requires column < wrap
  {
    if text == [] then []
    else if column + 1 == wrap then [text[0], NEWLINE] + Wrapped(text[1..], wrap, 0)
    else [text[0]] + Wrapped(text[1..], wrap, column + 1)
  }

  /** The column `n` characters on. */
  function ColumnAfter(n: nat, wrap: nat, column: nat): (after: nat)
    requires column < wrap
    ensures after < wrap
  {
    if n == 0 then column else ColumnAfter(n - 1, wrap, if column + 1 == wrap then 0 else column + 1)
  }

  /** Wrapping piece by piece is wrapping the whole, when each piece starts at the column the last one left. */
  lemma {:induction false} WrappedConcat(a: seq<Byte>, b: seq<Byte>, wrap: nat, column: nat)
    requires column < wrap
    ensures Wrapped(a + b, wrap, column) == Wrapped(a, wrap, column) + Wrapped(b, wrap, ColumnAfter(|a|, wrap, column))
    ensures ColumnAfter(|a + b|, wrap, column) == ColumnAfter(|b|, wrap, ColumnAfter(|a|, wrap, column))
    decreases |a|
  {
    if a == [] {
      assert a + b == b;
    } else {
      var next := if column + 1 == wrap then 0 else column + 1;
      var line := if column + 1 == wrap then [a[0], NEWLINE] else [a[0]];
      WrappedConcat(a[1..], b, wrap, next);
      DropWithinFront(a, b, 1);
      ConcatAssociative(line, Wrapped(a[1..], wrap, next), Wrapped(b, wrap, ColumnAfter(|a|, wrap, column)));
    }
  }

  /** A piece that does not pass the end of its line is written whole, with a newline if it reaches it. */
  lemma {:induction false} WrappedPiece(part: seq<Byte>, wrap: nat, column: nat)
    requires column + |part| <= wrap && column < wrap
    ensures Wrapped(part, wrap, column) == part + (if column + |part| == wrap then [NEWLINE] else [])
    ensures ColumnAfter(|part|, wrap, column) == if column + |part| == wrap then 0 else column + |part|
    decreases |part|
  {
    if part != [] && column + 1 < wrap {
      WrappedPiece(part[1..], wrap, column + 1);
      assert [part[0]] + part[1..] == part;
    }
  }

  lemma DropOneWrap(m: nat, wrap: nat)
    requires wrap > 0
    ensures (m + wrap) % wrap == m % wrap && (m + wrap) / wrap == m / wrap + 1
  {
    var q, r := m / wrap, m % wrap;
    assert m + wrap == (q + 1) * wrap + r;
    QuotientIs(m + wrap, wrap, q + 1, r);
  }

  lemma MultipleIsFar(d: int, wrap: nat)
    ensures d >= 1 ==> d * wrap >= wrap
    ensures d <= -1 ==> d * wrap <= 0 - wrap
  {
  }

  lemma QuotientIs(n: nat, wrap: nat, q: nat, r: nat)
    requires wrap > 0 && r < wrap && n == q * wrap + r
    ensures n / wrap == q && n % wrap == r
  {
    var d := n / wrap - q;
    assert d * wrap == r - n % wrap;
    MultipleIsFar(d, wrap);
  }

  /** Taking the newlines out of wrapped text leaves the text. */
  function Unwrapped(lines: seq<Byte>): seq<Byte>
  {
    if lines == [] then []
    else (if lines[0] == NEWLINE then [] else [lines[0]]) + Unwrapped(lines[1..])
  }

  /** One character and its newline, if it ends a line, unwrap to that character. */
  lemma UnwrapFirst(c: Byte, newline: bool, rest: seq<Byte>)
    requires c != NEWLINE
    ensures Unwrapped((if newline then [c, NEWLINE] else [c]) + rest) == [c] + Unwrapped(rest)
  {
    if newline {
      var lines := [c, NEWLINE] + rest;
      assert lines[1..] == [NEWLINE] + rest;
      assert lines[1..][1..] == rest;
      assert [] + Unwrapped(rest) == Unwrapped(rest);
    } else {
      assert ([c] + rest)[1..] == rest;
    }
  }

  lemma {:induction false} UnwrapWrapped(text: seq<Byte>, wrap: nat, column: nat)
    requires column < wrap && NEWLINE !in text
    ensures Unwrapped(Wrapped(text, wrap, column)) == text
    decreases |text|
  {
    if text != [] {
      var next := if column + 1 == wrap then 0 else column + 1;
      UnwrapWrapped(text[1..], wrap, next);
      UnwrapFirst(text[0], column + 1 == wrap, Wrapped(text[1..], wrap, next));
      assert [text[0]] + text[1..] == text;
    }
  }

  /** Where the `i`-th character after `column` stands in wrapped text. */
  function PlaceOf(i: nat, wrap: nat, column: nat): (at: nat)
    requires column < wrap
  {
    i + (column + i) / wrap
  }

  predicate EndsLine(i: nat, wrap: nat, column: nat)
    requires column < wrap
  {
    (column + i) % wrap == wrap - 1
  }

  lemma NextPlace(i: nat, wrap: nat, column: nat)
    requires column < wrap && i > 0
    ensures column + 1 == wrap ==>
      PlaceOf(i, wrap, column) == 2 + PlaceOf(i - 1, wrap, 0) && EndsLine(i, wrap, column) == EndsLine(i - 1, wrap, 0)
    ensures column + 1 < wrap ==>
      PlaceOf(i, wrap, column) == 1 + PlaceOf(i - 1, wrap, column + 1)
      && EndsLine(i, wrap, column) == EndsLine(i - 1, wrap, column + 1)
  {
    if column + 1 == wrap {
      DropOneWrap(i - 1, wrap);
    }
  }

  /** The `i`-th character stands in its place, and before a newline if it ends its line. */
  predicate Stands(text: seq<Byte>, wrap: nat, column: nat, i: nat)
    requires column < wrap && i < |text|
  {
    var lines, at := Wrapped(text, wrap, column), PlaceOf(i, wrap, column);
    && at < |lines| && lines[at] == text[i]
    && (EndsLine(i, wrap, column) ==> at + 1 < |lines| && lines[at + 1] == NEWLINE)
  }

  lemma FirstStands(text: seq<Byte>, wrap: nat, column: nat)
    requires column < wrap && text != []
    ensures Stands(text, wrap, column, 0)
  {
    QuotientIs(column, wrap, 0, column);
  }

  lemma NextStands(text: seq<Byte>, wrap: nat, column: nat, i: nat)
    requires column + 1 < wrap && 0 < i < |text| && Stands(text[1..], wrap, column + 1, i - 1)
    ensures Stands(text, wrap, column, i)
  {
    NextPlace(i, wrap, column);
  }

  lemma NextLineStands(text: seq<Byte>, wrap: nat, column: nat, i: nat)
    requires column + 1 == wrap && 0 < i < |text| && Stands(text[1..], wrap, 0, i - 1)
    ensures Stands(text, wrap, column, i)
  {
    NextPlace(i, wrap, column);
  }

  /** The newlines stand exactly after every `wrap`-th character, the first one `wrap - column` in. */
  lemma {:induction false} WrappedAt(text: seq<Byte>, wrap: nat, column: nat, i: nat)
    requires column < wrap && i < |text|
    ensures Stands(text, wrap, column, i)
    decreases |text|
  {
    if i == 0 {
      FirstStands(text, wrap, column);
    } else if column + 1 == wrap {
      WrappedAt(text[1..], wrap, 0, i - 1);
      NextLineStands(text, wrap, column, i);
    } else {
      WrappedAt(text[1..], wrap, column + 1, i - 1);
      NextStands(text, wrap, column, i);
    }
  }

  lemma {:induction false} WrappedLength(text: seq<Byte>, wrap: nat, column: nat)
    requires column < wrap
    ensures |Wrapped(text, wrap, column)| == |text| + (column + |text|) / wrap
    decreases |text|
  {
    if text == [] {
      QuotientIs(column, wrap, 0, column);
    } else if column + 1 == wrap {
      DropOneWrap(|text| - 1, wrap);
      WrappedLength(text[1..], wrap, 0);
    } else {
      WrappedLength(text[1..], wrap, column + 1);
    }
  }

  // ------------------------------------------------------------------ keystream

  type Hash = seq<Byte> -> Digest

  const COUNTERS := 0x1_0000_0000_0000_0000

  /** Every byte a counter of eight bytes can yield. */
  const KEYSTREAM_BYTES := 32 * COUNTERS

  /** An integer in `n` bytes, most significant first. */
  function BigEndian(i: nat, n: nat): (bytes: seq<Byte>)
    ensures |bytes| == n
  {
    if n == 0 then [] else BigEndian(i / 256, n - 1) + [i % 256]
  }

  function Block(sha: Hash, seed: seq<Byte>, counter: nat): Digest
  {
    sha(seed + BigEndian(counter, 8))
  }

  function KeyByte(sha: Hash, seed: seq<Byte>, i: nat): Byte
  {
    Block(sha, seed, i / 32)[i % 32]
  }

  /** `n` bytes of a seed's keystream, from byte `from` on. */
  function Keystream(sha: Hash, seed: seq<Byte>, from: nat, n: nat): (bytes: seq<Byte>)
    ensures |bytes| == n
  {
    seq<Byte>(n, k requires 0 <= k < n => KeyByte(sha, seed, from + k))
  }

  /** Reading bytes on from a value, most significant first. */
  function ReadOn(value: nat, bytes: seq<Byte>): (r: nat)
    decreases |bytes|
  {
    if bytes == [] then value else ReadOn(256 * value + bytes[0], bytes[1..])
  }

  function Power256(n: nat): (p: nat)
    ensures p > 0
  {
    if n == 0 then 1 else 256 * Power256(n - 1)
  }

  lemma {:induction false} ReadLast(value: nat, bytes: seq<Byte>, last: Byte)
    ensures ReadOn(value, bytes + [last]) == 256 * ReadOn(value, bytes) + last
    decreases |bytes|
  {
    if bytes == [] {
      assert bytes + [last] == [last] && [last][1..] == [];
    } else {
      ReadLast(256 * value + bytes[0], bytes[1..], last);
      DropWithinFront(bytes, [last], 1);
    }
  }

  /** Bytes written most significant first read back as the integer, if there are enough of them. */
  lemma {:induction false} BigEndianReadsBack(i: nat, n: nat)
    requires i < Power256(n)
    ensures ReadOn(0, BigEndian(i, n)) == i
    decreases n
  {
    if n > 0 {
      BigEndianReadsBack(i / 256, n - 1);
      ReadLast(0, BigEndian(i / 256, n - 1), i % 256);
    }
  }

  lemma BigEndianLast(value: nat, n: nat, last: Byte)
    ensures BigEndian(256 * value + last, n + 1) == BigEndian(value, n) + [last]
  {
    assert (256 * value + last) / 256 == value && (256 * value + last) % 256 == last;
  }

  /** No other bytes read as the integer. */
  lemma {:induction false} BigEndianIsUnique(bytes: seq<Byte>)
    ensures BigEndian(ReadOn(0, bytes), |bytes|) == bytes
    decreases |bytes|
  {
    if bytes != [] {
      var front, last := bytes[..|bytes| - 1], bytes[|bytes| - 1];
      assert bytes == front + [last];
      ReadLast(0, front, last);
      BigEndianIsUnique(front);
      BigEndianLast(ReadOn(0, front), |front|, last);
    }
  }

  lemma EightBytes()
    ensures Power256(8) == COUNTERS
  {
    assert Power256(2) == 0x1_0000 by { assert Power256(1) == 256; }
    assert Power256(4) == 0x1_0000_0000 by { assert Power256(3) == 0x100_0000; }
    assert Power256(6) == 0x1_0000_0000_0000 by { assert Power256(5) == 0x100_0000_0000; }
    assert Power256(7) == 0x100_0000_0000_0000;
  }

  /** The eight counter bytes of a block read back as its counter, and no other eight do. */
  lemma CounterBytes(counter: nat, eight: seq<Byte>)
    requires counter < COUNTERS && |eight| == 8
    ensures ReadOn(0, BigEndian(counter, 8)) == counter
    ensures ReadOn(0, eight) == counter <==> eight == BigEndian(counter, 8)
  {
    EightBytes();
    BigEndianReadsBack(counter, 8);
    BigEndianIsUnique(eight);
  }

  /**
   Counter mode, byte by byte: each byte of the keystream is that of the hash of the seed
   followed by the eight bytes that read, most significant first, as the number of its block.
   */
  lemma KeystreamByte(sha: Hash, seed: seq<Byte>, from: nat, n: nat, k: nat, eight: seq<Byte>)
    requires k < n && from + k < KEYSTREAM_BYTES
    requires |eight| == 8 && ReadOn(0, eight) == (from + k) / 32
    ensures Keystream(sha, seed, from, n)[k] == sha(seed + eight)[(from + k) % 32]
  {
    CounterBytes((from + k) / 32, eight);
  }

  lemma KeystreamConcat(sha: Hash, seed: seq<Byte>, from: nat, m: nat, n: nat)
    ensures Keystream(sha, seed, from, m) + Keystream(sha, seed, from + m, n) == Keystream(sha, seed, from, m + n)
  {
  }

  lemma KeystreamSplit(sha: Hash, seed: seq<Byte>, from: nat, m: nat, n: nat)
    requires m <= n
    ensures Keystream(sha, seed, from, n)[..m] == Keystream(sha, seed, from, m)
    ensures Keystream(sha, seed, from, n)[m..] == Keystream(sha, seed, from + m, n - m)
  {
  }

  lemma BlockIsKeystream(sha: Hash, seed: seq<Byte>, counter: nat)
    ensures Block(sha, seed, counter) == Keystream(sha, seed, 32 * counter, 32)
  {
    var block := Block(sha, seed, counter);
    forall k | 0 <= k < 32
      ensures KeyByte(sha, seed, 32 * counter + k) == block[k]
    {
      assert (32 * counter + k) / 32 == counter && (32 * counter + k) % 32 == k;
    }
  }

  class CounterStream {
    const seedBytes: seq<Byte>
    const sha: Hash
    var counter: nat
    var pending: seq<Byte>

    /** How many bytes have been read. */
    ghost function Position(): int
      reads this
    {
      32 * counter - |pending|
    }

    ghost predicate Valid()
      reads this
    {
      counter <= COUNTERS && Position() >= 0 && pending == Keystream(sha, seedBytes, Position(), |pending|)
    }

    constructor (seedBytes: seq<Byte>, sha: Hash)
      ensures Valid() && Position() == 0 && this.seedBytes == seedBytes && this.sha == sha
    {
      this.seedBytes, this.sha, counter, pending := seedBytes, sha, 0, [];
    }

    /** `read`: exactly `size` bytes of the keystream, until the eight counter bytes are spent. */
    method Read(size: int) returns (r: Result<seq<Byte>>)
      requires Valid()
      modifies this
      ensures Valid()
      ensures r.ValueError? <==> size < 0
      ensures r.OverflowError? <==> size >= 0 && old(Position()) + size > KEYSTREAM_BYTES
      ensures r.Ok? ==>
        && r.value == Keystream(sha, seedBytes, old(Position()), size)
        && Position() == old(Position()) + size
    {
      if size < 0 {
        return ValueError;
      }
      var output: seq<Byte> := [];
      ghost var from := Position();
      while |output| < size
        invariant Valid() && |output| <= size && Position() == from + |output|
        invariant output == Keystream(sha, seedBytes, from, |output|)
        decreases size - |output|
      {
        if pending == [] {
          if counter == COUNTERS {
            return OverflowError;
          }
          BlockIsKeystream(sha, seedBytes, counter);
          pending := Block(sha, seedBytes, counter);
          counter := counter + 1;
        }
        var needed := Min(|pending|, size - |output|);
        KeystreamSplit(sha, seedBytes, Position(), needed, |pending|);
        KeystreamConcat(sha, seedBytes, from, |output|, needed);
        output := output + pending[..needed];
        pending := pending[needed..];
      }
      return Ok(output);
    }
  }

  // --------------------------------------------------------------------- writer

  class EncodedWriter {
    const wrap: nat
    var target: seq<Byte>
    /** Everything the digest was updated with. */
    var digested: seq<Byte>
    var column: nat
    /** The base64 text written so far, without newlines. */
    ghost var text: seq<Byte>

    ghost predicate Valid()
      reads this
    {
      && digested == target
      && (if wrap == 0 then target == text
          else column < wrap && column == ColumnAfter(|text|, wrap, 0) && target == Wrapped(text, wrap, 0))
    }

    constructor (wrap: nat)
      ensures Valid() && text == [] && this.wrap == wrap
    {
      this.wrap, target, digested, column, text := wrap, [], [], 0, [];
    }

    method Emit(part: seq<Byte>)
      modifies this`target, this`digested
      ensures target == old(target) + part && digested == old(digested) + part
    {
      target := target + part;
      digested := digested + part;
    }

    /** `write_chunk`: encode, write, and count what was written. */
    method WriteChunk(payload: seq<Byte>) returns (written: nat)
      requires Valid()
      modifies this
      ensures Valid() && text == old(text) + Base64(payload)
      ensures written == |target| - |old(target)|
    {
      var encoded := Base64(payload);
      if wrap == 0 {
        Emit(encoded);
        text := text + encoded;
        return |encoded|;
      }
      written := WriteWrapped(encoded);
    }

    /** `_write_wrapped`: part by part, each up to the end of its line. */
    method WriteWrapped(encoded: seq<Byte>) returns (written: nat)
      requires Valid() && wrap > 0
      modifies this
      ensures Valid() && text == old(text) + encoded
      ensures written == |target| - |old(target)|
    {
      written := 0;
      var offset := 0;
      while offset < |encoded|
        invariant offset <= |encoded| && Valid()
        invariant text == old(text) + encoded[..offset]
        invariant written == |target| - |old(target)|
      {
        var available := wrap - column;
        var end := Min(offset + available, |encoded|);
        TakeMore(encoded, offset, end);
        ConcatAssociative(old(text), encoded[..offset], encoded[offset..end]);
        var count := WritePart(encoded[offset..end]);
        written := written + count;
        offset := end;
      }
      assert encoded[..|encoded|] == encoded;
    }

    /** One part of a line, and the newline if it ends the line. */
    method WritePart(part: seq<Byte>) returns (written: nat)
      requires Valid() && wrap > 0 && 0 < |part| <= wrap - column
      modifies this
      ensures Valid() && text == old(text) + part
      ensures written == |target| - |old(target)|
    {
      WrappedConcat(text, part, wrap, 0);
      WrappedPiece(part, wrap, column);
      ghost var before := target;
      Emit(part);
      written := |part|;
      column := column + |part|;
      if column == wrap {
        Emit([NEWLINE]);
        written := written + 1;
        column := 0;
        assert target == before + (part + [NEWLINE]);
      }
      text := text + part;
    }
  }

  // -------------------------------------------------------------------- fixture

  const RAW_CHUNK_SIZE := 98304

  datatype Manifest = Manifest(rawBytes: nat, wrap: nat, outputBytes: nat, digest: Digest)

  /** What a fixture file must hold. */
  function Fixture(sha: Hash, seed: seq<Byte>, rawBytes: nat, wrap: nat): (file: seq<Byte>)
  {
    var text := Base64(Keystream(sha, seed, 0, rawBytes));
    if wrap == 0 then text else Wrapped(text, wrap, 0)
  }

  /**
   `write_fixture`, over the contents of its output file: however reads and writes are
   chunked, the file is the wrapped base64 of the keystream's first `rawBytes` bytes,
   and the manifest describes it.
   */
  method WriteFixture(sha: Hash, seed: seq<Byte>, rawBytes: int, wrap: int) returns (r: Result<Manifest>, file: seq<Byte>)
    ensures r.ValueError? <==> rawBytes < 0 || (wrap != 0 && wrap != 76)
    ensures r.Ok? <==> !r.ValueError? && rawBytes <= KEYSTREAM_BYTES
    ensures r.Ok? ==>
      && file == Fixture(sha, seed, rawBytes, wrap)
      && r.value == Manifest(rawBytes, wrap, |file|, sha(file))
  {
    file := [];
    if rawBytes < 0 || (wrap != 0 && wrap != 76) {
      return ValueError, file;
    }
    var stream := new CounterStream(seed, sha);
    var writer := new EncodedWriter(wrap);
    var written := WriteChunks(stream, writer, rawBytes);
    file := writer.target;
    if !written.Ok? {
      return OverflowError, file;
    }
    return Ok(Manifest(rawBytes, wrap, written.value, sha(writer.digested))), file;
  }

  /** How much to read next: all that is left, or a whole number of quanta. */
  function ChunkSize(remaining: nat): (size: nat)
    requires remaining > 0
    ensures 0 < size <= remaining && (size == remaining || size % 3 == 0)
  {
    var size := Min(remaining, RAW_CHUNK_SIZE);
    size - (if remaining > RAW_CHUNK_SIZE then size % 3 else 0)
  }

  lemma EncodeNext(sha: Hash, seed: seq<Byte>, done: nat, size: nat)
    requires done % 3 == 0
    ensures Base64(Keystream(sha, seed, 0, done)) + Base64(Keystream(sha, seed, done, size))
         == Base64(Keystream(sha, seed, 0, done + size))
  {
    KeystreamConcat(sha, seed, 0, done, size);
    Base64Joined(Keystream(sha, seed, 0, done), Keystream(sha, seed, done, size), Keystream(sha, seed, 0, done + size));
  }

  lemma Base64Joined(front: seq<Byte>, back: seq<Byte>, whole: seq<Byte>)
    requires |front| % 3 == 0 && front + back == whole
    ensures Base64(front) + Base64(back) == Base64(whole)
  {
    Base64Concat(front, back);
  }

  /** Whether a writer holds the encoding of everything read from a stream so far. */
  ghost predicate InStep(stream: CounterStream, writer: EncodedWriter)
    reads stream, writer
  {
    && stream.Valid() && writer.Valid()
    && writer.text == Base64(Keystream(stream.sha, stream.seedBytes, 0, stream.Position()))
  }

  predicate WholeSoFar(done: nat)
  {
    done % 3 == 0
  }

  /** One chunk, read and written. */
  method WriteNext(stream: CounterStream, writer: EncodedWriter, size: nat) returns (r: Result<nat>)
    requires InStep(stream, writer) && stream.Position() % 3 == 0
    modifies stream, writer
    ensures !r.ValueError? && writer.Valid()
    ensures r.Ok? <==> old(stream.Position()) + size <= KEYSTREAM_BYTES
    ensures r.Ok? ==>
      && InStep(stream, writer) && stream.Position() == old(stream.Position()) + size
      && r.value == |writer.target| - |old(writer.target)|
  {
    var chunk := stream.Read(size);
    if !chunk.Ok? {
      return OverflowError;
    }
    EncodeNext(stream.sha, stream.seedBytes, old(stream.Position()), size);
    var written := writer.WriteChunk(chunk.value);
    return Ok(written);
  }

  lemma WholeQuanta(done: nat, size: nat)
    requires done % 3 == 0 && size % 3 == 0
    ensures (done + size) % 3 == 0
  {
  }

  /** The chunk loop of `write_fixture`: every chunk but the last is a whole number of quanta. */
  method WriteChunks(stream: CounterStream, writer: EncodedWriter, rawBytes: nat) returns (r: Result<nat>)
    requires InStep(stream, writer) && stream.Position() == 0 && writer.target == []
    modifies stream, writer
    ensures !r.ValueError? && (r.Ok? <==> rawBytes <= KEYSTREAM_BYTES)
    ensures writer.Valid()
    ensures r.Ok? ==> InStep(stream, writer) && stream.Position() == rawBytes && r.value == |writer.target|
  {
    var remaining := rawBytes;
    var outputBytes := 0;
    while remaining > 0
      invariant 0 <= remaining <= rawBytes && InStep(stream, writer)
      invariant stream.Position() == rawBytes - remaining <= KEYSTREAM_BYTES
      invariant remaining > 0 ==> WholeSoFar(rawBytes - remaining)
      invariant outputBytes == |writer.target|
    {
      var size := ChunkSize(remaining);
      var written := WriteNext(stream, writer, size);
      if !written.Ok? {
        return OverflowError;
      }
      outputBytes := outputBytes + written.value;
      if size < remaining {
        WholeQuanta(rawBytes - remaining, size);
      }
      remaining := remaining - size;
    }
    return Ok(outputBytes);
  }

  /** The size a manifest reports, and the way back from the file to the keystream. */
  lemma FixtureReadsBack(sha: Hash, seed: seq<Byte>, rawBytes: nat, wrap: nat)
    ensures
      var file := Fixture(sha, seed, rawBytes, wrap);
      var e := 4 * ((rawBytes + 2) / 3);
      && |file| == (if wrap == 0 then e else e + e / wrap)
      && Unbase64(Unwrapped(file)) == Some(Keystream(sha, seed, 0, rawBytes))
  {
    var raw := Keystream(sha, seed, 0, rawBytes);
    var text := Base64(raw);
    Base64Length(raw);
    Base64RoundTrip(raw);
    if wrap == 0 {
      UnwrapPlain(text);
    } else {
      WrappedLength(text, wrap, 0);
      UnwrapWrapped(text, wrap, 0);
    }
  }

  lemma {:induction false} UnwrapPlain(text: seq<Byte>)
    requires NEWLINE !in text
    ensures Unwrapped(text) == text
  {
    if text != [] {
      UnwrapPlain(text[1..]);
      assert [text[0]] + text[1..] == text;
    }
  }
}
