/**
 The echo line limiter: a mirrored line never exceeds its byte budget, and a line
 that does not fit ends in a marker naming the bytes it lost
 (cuprum/_echo_truncation.py).
 */
module EchoTruncation {
  import opened Prelude

  /** What the sink's incremental decoder and encoder do with the last byte of a prefix. */
  datatype Emission = Fails | Emits(bytes: seq<Byte>, midCharacter: bool)

  /**
   An ASCII-compatible stateless encoding: how it spells the ellipsis, if it can, and
   how a text sink re-encodes each further byte of a line.
   */
  datatype EchoEncoding = EchoEncoding(ellipsis: Option<seq<Byte>>, isTextSink: bool, transcode: seq<Byte> -> Emission)

  /** One bounded echo payload and its source-byte accounting. */
  datatype FinishedEchoLine = FinishedEchoLine(payload: seq<Byte>, dropped: int, sourceBytes: nat)

  // -------------------------------------------------------------------- the marker

  /** An ASCII text as bytes. */
  function Ascii(text: string): (bytes: seq<Byte>)
    ensures |bytes| == |text|
  {
    seq(|text|, i requires 0 <= i < |text| => text[i] as int % 256)
  }

  /** A count in decimal. */
  function Decimal(n: nat): (digits: seq<Byte>)
    ensures |digits| >= 1
  {
    if n < 10 then [48 + n] else Decimal(n / 10) + [48 + n % 10]
  }

  /** Reading a decimal count back. */
  function Count(digits: seq<Byte>): int
  {
    if digits == [] then 0 else 10 * Count(digits[..|digits| - 1]) + digits[|digits| - 1] - 48
  }

  function MarkerTail(dropped: nat): (bytes: seq<Byte>)
  {
    Ascii(" [truncated ") + Decimal(dropped) + Ascii(" bytes]")
  }

  function AsciiMarker(dropped: nat): (bytes: seq<Byte>) { Ascii("...") + MarkerTail(dropped) }

  /** `truncation_marker`: the preferred marker, or the ASCII one where the ellipsis has no encoding. */
  function TruncationMarker(dropped: nat, enc: EchoEncoding): (bytes: seq<Byte>)
  {
    match enc.ellipsis
    case Some(e) => e + MarkerTail(dropped)
    case None => AsciiMarker(dropped)
  }

  /** A count's digits read back as the count. */
  lemma {:induction false} DecimalRoundTrip(n: nat)
    ensures Count(Decimal(n)) == n
  {
    if n >= 10 {
      DecimalRoundTrip(n / 10);
      assert Decimal(n)[..|Decimal(n)| - 1] == Decimal(n / 10);
    } else {
      assert Decimal(n)[..0] == [];
    }
  }

  /** Two markers are the same only when they name the same count. */
  lemma MarkerIsInjective(d: nat, e: nat, enc: EchoEncoding)
    requires TruncationMarker(d, enc) == TruncationMarker(e, enc)
    ensures d == e
  {
    var head := if enc.ellipsis.Some? then enc.ellipsis.value else Ascii("...");
    assert head + MarkerTail(d) == head + MarkerTail(e);
    MarkersShareDigits(head, d, e);
    DecimalRoundTrip(d);
    DecimalRoundTrip(e);
  }

  lemma MarkersShareDigits(head: seq<Byte>, d: nat, e: nat)
    requires head + MarkerTail(d) == head + MarkerTail(e)
    ensures Decimal(d) == Decimal(e)
  {
    MarkerDigits(head, d);
    MarkerDigits(head, e);
  }

  lemma MarkerDigits(head: seq<Byte>, d: nat)
    ensures
      var marker := head + MarkerTail(d);
      |marker| >= |head| + 19 && marker[|head| + 12..|marker| - 7] == Decimal(d)
  {
    SliceMiddle(head, Ascii(" [truncated "), Decimal(d), Ascii(" bytes]"));
  }

  lemma SliceMiddle(head: seq<Byte>, before: seq<Byte>, digits: seq<Byte>, after: seq<Byte>)
    ensures
      var marker := head + (before + digits + after);
      marker[|head| + |before|..|marker| - |after|] == digits
  {
  }

  lemma {:induction false} DecimalMonotone(m: nat, n: nat)
    requires m <= n
    ensures |Decimal(m)| <= |Decimal(n)|
  {
    if m >= 10 {
      DecimalMonotone(m / 10, n / 10);
    }
  }

  function Power10(k: nat): (p: nat)
    ensures p > 0
  {
    if k == 0 then 1 else 10 * Power10(k - 1)
  }

  lemma {:induction false} DecimalLength(n: nat, k: nat)
    requires k > 0
    ensures |Decimal(n)| <= k <==> n < Power10(k)
    decreases k
  {
    if k == 1 {
      assert Power10(1) == 10 * Power10(0);
      if n >= 10 {
        assert |Decimal(n)| == |Decimal(n / 10)| + 1;
      }
    } else if n >= 10 {
      DecimalLength(n / 10, k - 1);
      assert Power10(k) == 10 * Power10(k - 1);
    } else {
      DecimalLength(0, k - 1);
      assert Power10(k) == 10 * Power10(k - 1);
    }
  }

  lemma MarkerLength(dropped: nat, enc: EchoEncoding)
    ensures |TruncationMarker(dropped, enc)|
         == (if enc.ellipsis.Some? then |enc.ellipsis.value| else 3) + 19 + |Decimal(dropped)|
  {
    assert |Ascii(" [truncated ")| == 12 && |Ascii(" bytes]")| == 7 && |Ascii("...")| == 3;
  }

  // ------------------------------------------------------------ encoding a prefix

  /** The sink's bytes for the first `n` bytes of a line; `None` once its codec has failed. */
  function Encoded(line: seq<Byte>, n: nat, enc: EchoEncoding): (bytes: Option<seq<Byte>>)
    requires n <= |line|
  {
    if n == 0 then Some([])
    else
      match Encoded(line, n - 1, enc)
      case None => None
      case Some(before) =>
        match enc.transcode(line[..n])
        case Fails => None
        case Emits(bytes, _) => Some(before + bytes)
  }

  /** Whether the first `n` bytes end on a character and fit the budget once encoded. */
  predicate Fits(line: seq<Byte>, n: nat, budget: nat, enc: EchoEncoding)
    requires n <= |line|
  {
    || n == 0
    || (&& Encoded(line, n, enc).Some?
        && enc.transcode(line[..n]).Emits? && !enc.transcode(line[..n]).midCharacter
        && |Encoded(line, n, enc).value| <= budget)
  }

  /** The longest fitting prefix of at most `n` bytes. */
  function LongestFit(line: seq<Byte>, n: nat, budget: nat, enc: EchoEncoding): (k: nat)
    requires n <= |line|
    ensures k <= n && Fits(line, k, budget, enc)
    ensures forall j :: k < j <= n ==> !Fits(line, j, budget, enc)
  {
    if Fits(line, n, budget, enc) then n else LongestFit(line, n - 1, budget, enc)
  }

  /** How much of a line a sink keeps within a budget. */
  function KeptLength(line: seq<Byte>, budget: nat, enc: EchoEncoding): (k: nat)
    ensures k <= |line|
  {
    if enc.isTextSink then LongestFit(line, |line|, budget, enc) else Min(|line|, budget)
  }

  /** What a sink shows for the bytes it keeps. */
  function Shown(line: seq<Byte>, budget: nat, enc: EchoEncoding): (bytes: seq<Byte>)
    ensures |bytes| <= budget
  {
    var k := KeptLength(line, budget, enc);
    if !enc.isTextSink then line[..k] else if k == 0 then [] else Encoded(line, k, enc).value
  }

  lemma {:induction false} EncodedGrows(line: seq<Byte>, m: nat, n: nat, enc: EchoEncoding)
    requires m <= n <= |line| && Encoded(line, n, enc).Some?
    ensures Encoded(line, m, enc).Some? && |Encoded(line, m, enc).value| <= |Encoded(line, n, enc).value|
    decreases n
  {
    if m < n {
      EncodedGrows(line, m, n - 1, enc);
    }
  }

  /** `_encode_prefix`: one pass that remembers the last safe boundary. */
  method EncodePrefix(line: seq<Byte>, budget: nat, enc: EchoEncoding) returns (kept: seq<Byte>, shown: seq<Byte>)
    ensures kept == line[..KeptLength(line, budget, enc)] && shown == Shown(line, budget, enc)
  {
    if !enc.isTextSink {
      kept := line[..Min(|line|, budget)];
      return kept, kept;
    }
    var encodedPrefix: seq<Byte> := [];
    var safeSource, safeEncoded := 0, 0;
    var length := 0;
    while length < |line|
      invariant safeSource <= length <= |line|
      invariant Encoded(line, length, enc) == Some(encodedPrefix)
      invariant safeEncoded <= |encodedPrefix|
      invariant Encoded(line, safeSource, enc) == Some(encodedPrefix[..safeEncoded])
      invariant Fits(line, safeSource, budget, enc)
      invariant forall j :: safeSource < j <= length ==> !Fits(line, j, budget, enc)
    {
      length := length + 1;
      var step := enc.transcode(line[..length]);
      if step.Fails? {
        NothingFitsAfterFailure(line, length, budget, enc);
        break;
      }
      assert (encodedPrefix + step.bytes)[..safeEncoded] == encodedPrefix[..safeEncoded];
      encodedPrefix := encodedPrefix + step.bytes;
      if step.midCharacter {
        continue;
      }
      if |encodedPrefix| > budget {
        NothingFitsAfterOverflow(line, length, budget, enc);
        break;
      }
      safeSource, safeEncoded := length, |encodedPrefix|;
      assert encodedPrefix[..safeEncoded] == encodedPrefix;
    }
    LongestFitIs(line, safeSource, budget, enc);
    kept, shown := line[..safeSource], encodedPrefix[..safeEncoded];
  }

  lemma NothingFitsAfterFailure(line: seq<Byte>, n: nat, budget: nat, enc: EchoEncoding)
    requires 0 < n <= |line| && enc.transcode(line[..n]).Fails?
    ensures forall j :: n <= j <= |line| ==> !Fits(line, j, budget, enc)
  {
    forall j | n <= j <= |line| ensures !Fits(line, j, budget, enc) {
      if Encoded(line, j, enc).Some? {
        EncodedGrows(line, n, j, enc);
      }
    }
  }

  lemma NothingFitsAfterOverflow(line: seq<Byte>, n: nat, budget: nat, enc: EchoEncoding)
    requires 0 < n <= |line| && Encoded(line, n, enc).Some? && |Encoded(line, n, enc).value| > budget
    ensures forall j :: n <= j <= |line| ==> !Fits(line, j, budget, enc)
  {
    forall j | n <= j <= |line| ensures !Fits(line, j, budget, enc) {
      if Encoded(line, j, enc).Some? {
        EncodedGrows(line, n, j, enc);
      }
    }
  }

  lemma LongestFitIs(line: seq<Byte>, k: nat, budget: nat, enc: EchoEncoding)
    requires k <= |line| && Fits(line, k, budget, enc)
    requires forall j :: k < j <= |line| ==> !Fits(line, j, budget, enc)
    ensures LongestFit(line, |line|, budget, enc) == k
  {
    var found := LongestFit(line, |line|, budget, enc);
    assert Fits(line, found, budget, enc);
  }

  /** A wider budget never keeps less. */
  lemma KeptMonotone(line: seq<Byte>, narrow: nat, wide: nat, enc: EchoEncoding)
    requires narrow <= wide
    ensures KeptLength(line, narrow, enc) <= KeptLength(line, wide, enc)
  {
    if enc.isTextSink {
      assert Fits(line, KeptLength(line, narrow, enc), wide, enc);
    }
  }

  // ------------------------------------------------------------- the fixed point

  /** A line that does not fit: its first bytes, its length and what its ending adds. */
  datatype LongLine = LongLine(maxBytes: nat, line: seq<Byte>, sourceBytes: nat, ending: seq<Byte>, omitted: nat)
  {
    ghost predicate Valid()
    {
      |line| <= sourceBytes && |ending| <= maxBytes
    }

    /** Room for the prefix beside a marker naming `dropped` bytes. */
    function Budget(dropped: nat, enc: EchoEncoding): nat
    {
      Max(maxBytes - |ending| - |TruncationMarker(dropped, enc)|, 0)
    }

    /** The bytes dropped when the prefix leaves room for a marker naming `dropped`. */
    function NextDropped(dropped: nat, enc: EchoEncoding): nat
      requires |line| <= sourceBytes
    {
      sourceBytes - KeptLength(line, Budget(dropped, enc), enc) + omitted
    }

    /** The count the last of at most `rounds` rounds worked with. */
    function LastCount(dropped: nat, rounds: nat, enc: EchoEncoding): nat
      requires |line| <= sourceBytes
      decreases rounds
    {
      if rounds <= 1 || NextDropped(dropped, enc) == dropped then dropped
      else LastCount(NextDropped(dropped, enc), rounds - 1, enc)
    }

    function FirstCount(): nat { sourceBytes + omitted }
  }

  const MAX_ROUNDS := 16

  /** What the sink keeps and shows when the marker names `dropped` bytes. */
  predicate IsPrefixFor(long: LongLine, dropped: nat, enc: EchoEncoding, kept: seq<Byte>, shown: seq<Byte>)
  {
    var budget := long.Budget(dropped, enc);
    kept == long.line[..KeptLength(long.line, budget, enc)] && shown == Shown(long.line, budget, enc)
  }

  /** One round of `_bounded_prefix`: the prefix beside a marker naming `dropped`, and what that drops. */
  method Round(long: LongLine, dropped: nat, enc: EchoEncoding) returns (kept: seq<Byte>, shown: seq<Byte>, updated: nat)
    requires long.Valid()
    ensures IsPrefixFor(long, dropped, enc, kept, shown)
    ensures updated == long.NextDropped(dropped, enc)
  {
    kept, shown := EncodePrefix(long.line, long.Budget(dropped, enc), enc);
    updated := long.sourceBytes - |kept| + long.omitted;
  }

  /** `_bounded_prefix`: at most sixteen rounds towards a marker that names its own cost. */
  method BoundedPrefix(long: LongLine, enc: EchoEncoding) returns (kept: seq<Byte>, shown: seq<Byte>)
    requires long.Valid()
    ensures IsPrefixFor(long, long.LastCount(long.FirstCount(), MAX_ROUNDS, enc), enc, kept, shown)
  {
    var dropped: nat := long.FirstCount();
    ghost var last := long.LastCount(dropped, MAX_ROUNDS, enc);
    kept, shown := [], [];
    for round := 0 to MAX_ROUNDS
      invariant round < MAX_ROUNDS ==> last == long.LastCount(dropped, MAX_ROUNDS - round, enc)
      invariant round == MAX_ROUNDS ==> IsPrefixFor(long, last, enc, kept, shown)
    {
      LastCountStep(long, dropped, MAX_ROUNDS - round, enc);
      var updated;
      kept, shown, updated := Round(long, dropped, enc);
      if updated == dropped {
        return;
      }
      dropped := updated;
    }
  }

  lemma LastCountStep(long: LongLine, dropped: nat, rounds: nat, enc: EchoEncoding)
    requires long.Valid()
    ensures
      var next := long.NextDropped(dropped, enc);
      long.LastCount(dropped, rounds, enc)
        == if rounds <= 1 || next == dropped then dropped else long.LastCount(next, rounds - 1, enc)
  {
  }

  /** Each round drops no more than the one before it. */
  lemma NextDroppedMonotone(long: LongLine, d: nat, e: nat, enc: EchoEncoding)
    requires long.Valid() && d <= e
    ensures long.NextDropped(d, enc) <= long.NextDropped(e, enc)
  {
    DecimalMonotone(d, e);
    MarkerLength(d, enc);
    MarkerLength(e, enc);
    KeptMonotone(long.line, long.Budget(e, enc), long.Budget(d, enc), enc);
  }

  /** Counts with as many digits leave the same budget, so the second such round settles. */
  lemma SameDigitsSameNext(long: LongLine, d: nat, e: nat, enc: EchoEncoding)
    requires long.Valid() && |Decimal(d)| == |Decimal(e)|
    ensures long.NextDropped(d, enc) == long.NextDropped(e, enc)
  {
    MarkerLength(d, enc);
    MarkerLength(e, enc);
  }

  /** The rounds reach a fixed point within one more round than the first count has digits. */
  lemma {:induction false} RoundsSettle(long: LongLine, dropped: nat, rounds: nat, enc: EchoEncoding)
    requires long.Valid() && long.NextDropped(dropped, enc) <= dropped && rounds > |Decimal(dropped)|
    ensures
      var last := long.LastCount(dropped, rounds, enc);
      long.NextDropped(last, enc) == last <= dropped
    decreases rounds
  {
    var next := long.NextDropped(dropped, enc);
    if next != dropped {
      NextDroppedMonotone(long, next, dropped, enc);
      DecimalMonotone(next, dropped);
      if |Decimal(next)| == |Decimal(dropped)| {
        SameDigitsSameNext(long, next, dropped, enc);
      } else {
        RoundsSettle(long, next, rounds - 1, enc);
      }
    }
  }

  /** For totals below 10^15 the cap of sixteen rounds is never what ends the loop. */
  lemma CapNeverDecides(long: LongLine, enc: EchoEncoding)
    requires long.Valid() && long.FirstCount() < Power10(15)
    ensures
      var last := long.LastCount(long.FirstCount(), MAX_ROUNDS, enc);
      long.NextDropped(last, enc) == last
  {
    DecimalLength(long.FirstCount(), 15);
    RoundsSettle(long, long.FirstCount(), MAX_ROUNDS, enc);
  }

  /** The loop settles on the greatest consistent count: every other one it could have named is smaller. */
  lemma {:induction false} SettlesOnGreatest(long: LongLine, dropped: nat, rounds: nat, other: nat, enc: EchoEncoding)
    requires long.Valid() && other <= dropped && long.NextDropped(other, enc) == other
    ensures other <= long.LastCount(dropped, rounds, enc)
    decreases rounds
  {
    if rounds > 1 && long.NextDropped(dropped, enc) != dropped {
      NextDroppedMonotone(long, other, dropped, enc);
      SettlesOnGreatest(long, long.NextDropped(dropped, enc), rounds - 1, other, enc);
    }
  }

  // ------------------------------------------------------------- a finished line

  /** `_fit_marker`: the whole marker, or as much of the ASCII one as the sink can show. */
  function FittedMarker(dropped: nat, budget: nat, enc: EchoEncoding): (bytes: seq<Byte>)
    ensures |bytes| <= budget
  {
    var marker := TruncationMarker(dropped, enc);
    if |marker| <= budget then marker else Shown(AsciiMarker(dropped), budget, enc)
  }

  method FitMarker(budget: nat, dropped: nat, enc: EchoEncoding) returns (bytes: seq<Byte>)
    ensures bytes == FittedMarker(dropped, budget, enc)
  {
    var marker := TruncationMarker(dropped, enc);
    if |marker| <= budget {
      return marker;
    }
    var _, shown := EncodePrefix(AsciiMarker(dropped), budget, enc);
    return shown;
  }

  /** The line as the limiter sees it once it is known not to fit. */
  function Long(maxBytes: nat, source: seq<Byte>, ending: seq<Byte>): (long: LongLine)
    ensures long.Valid()
  {
    LongLine(maxBytes, source[..Min(|source|, maxBytes)], |source|,
             if |ending| <= maxBytes then ending else [],
             if |ending| <= maxBytes then 0 else |ending|)
  }

  /** The budget the last round gave the prefix. */
  function LastBudget(long: LongLine, enc: EchoEncoding): nat
    requires long.Valid()
  {
    long.Budget(long.LastCount(long.FirstCount(), MAX_ROUNDS, enc), enc)
  }

  /** The source bytes of a long line that are mirrored. */
  function Kept(long: LongLine, enc: EchoEncoding): (kept: seq<Byte>)
    requires long.Valid()
    ensures |kept| <= long.sourceBytes
  {
    long.line[..KeptLength(long.line, LastBudget(long, enc), enc)]
  }

  /** The kept bytes as the sink shows them. */
  function ShownPrefix(long: LongLine, enc: EchoEncoding): (shown: seq<Byte>)
    requires long.Valid()
    ensures |shown| <= Max(long.maxBytes - |long.ending|, 0)
  {
    Shown(long.line, LastBudget(long, enc), enc)
  }

  function Dropped(long: LongLine, enc: EchoEncoding): (dropped: nat)
    requires long.Valid()
  {
    long.sourceBytes - |Kept(long, enc)| + long.omitted
  }

  /** A mirrored line: the shown prefix, as much of the marker as has room, the ending. */
  function Assembled(long: LongLine, shown: seq<Byte>, dropped: nat, endingBytes: nat, enc: EchoEncoding)
    : (finished: FinishedEchoLine)
  {
    var room := Max(long.maxBytes - |shown| - |long.ending|, 0);
    FinishedEchoLine(shown + FittedMarker(dropped, room, enc) + long.ending, dropped, long.sourceBytes + endingBytes)
  }

  function FinishedLong(long: LongLine, endingBytes: nat, enc: EchoEncoding): (finished: FinishedEchoLine)
    requires long.Valid()
  {
    Assembled(long, ShownPrefix(long, enc), Dropped(long, enc), endingBytes, enc)
  }

  /** What one whole line is mirrored as, however it reached the limiter. */
  function Finished(maxBytes: nat, source: seq<Byte>, ending: seq<Byte>, enc: EchoEncoding): (finished: FinishedEchoLine)
    ensures |finished.payload| <= maxBytes
    ensures finished.sourceBytes == |source| + |ending|
    ensures finished.sourceBytes <= maxBytes ==> finished.payload == source + ending && finished.dropped == 0
  {
    if |source| + |ending| <= maxBytes then FinishedEchoLine(source + ending, 0, |source| + |ending|)
    else FinishedLong(Long(maxBytes, source, ending), |ending|, enc)
  }

  class EchoLineLimiter {
    const maxLineBytes: nat
    var line: seq<Byte>
    var sourceLineBytes: nat
    /** Every byte of the current line so far. */
    ghost var source: seq<Byte>

    ghost predicate Valid()
      reads this
    {
      line == source[..Min(|source|, maxLineBytes)] && sourceLineBytes == |source|
    }

    constructor (maxLineBytes: nat)
      ensures Valid() && source == [] && this.maxLineBytes == maxLineBytes
    {
      this.maxLineBytes := maxLineBytes;
      line, sourceLineBytes, source := [], 0, [];
    }

    /** `bound_line`: count every byte, retain only the bounded prefix. */
    method BoundLine(segment: seq<Byte>)
      requires Valid()
      modifies this
      ensures Valid() && source == old(source) + segment
    {
      sourceLineBytes := sourceLineBytes + |segment|;
      var remaining := maxLineBytes - |line|;
      if remaining > 0 {
        line := line + segment[..Min(|segment|, remaining)];
      }
      source := source + segment;
    }

    /** `finish_line`: the bounded payload of the line, and a limiter ready for the next one. */
    method FinishLine(ending: seq<Byte>, enc: EchoEncoding) returns (finished: FinishedEchoLine)
      requires Valid()
      modifies this
      ensures Valid() && source == []
      ensures finished == Finished(maxLineBytes, old(source), ending, enc)
    {
      var long := LongLine(maxLineBytes, line, sourceLineBytes,
                           if |ending| <= maxLineBytes then ending else [],
                           if |ending| > maxLineBytes then |ending| else 0);
      assert long == Long(maxLineBytes, source, ending);
      ghost var whole := source;
      line, sourceLineBytes, source := [], 0, [];
      if long.sourceBytes + |ending| <= maxLineBytes {
        assert long.line == whole && long.ending == ending;
        return FinishedEchoLine(long.line + long.ending, 0, long.sourceBytes + |ending|);
      }
      finished := FinishLong(long, |ending|, enc);
    }
  }

  /** The part of `finish_line` a line that does not fit goes through. */
  method FinishLong(long: LongLine, endingBytes: nat, enc: EchoEncoding) returns (finished: FinishedEchoLine)
    requires long.Valid()
    ensures finished == FinishedLong(long, endingBytes, enc)
  {
    var kept, shown := BoundedPrefix(long, enc);
    LastPrefix(long, enc, kept, shown);
    var dropped: nat := long.sourceBytes - |kept| + long.omitted;
    finished := Assemble(long, shown, dropped, endingBytes, enc);
  }

  lemma LastPrefix(long: LongLine, enc: EchoEncoding, kept: seq<Byte>, shown: seq<Byte>)
    requires long.Valid()
    ensures IsPrefixFor(long, long.LastCount(long.FirstCount(), MAX_ROUNDS, enc), enc, kept, shown) ==>
      && kept == Kept(long, enc) && shown == ShownPrefix(long, enc)
      && long.sourceBytes - |kept| + long.omitted == Dropped(long, enc)
  {
  }

  /** The last lines of `finish_line`: mark and put together. */
  method Assemble(long: LongLine, shown: seq<Byte>, dropped: nat, endingBytes: nat, enc: EchoEncoding)
    returns (finished: FinishedEchoLine)
    ensures finished == Assembled(long, shown, dropped, endingBytes, enc)
  {
    var room := Max(long.maxBytes - |shown| - |long.ending|, 0);
    var marker := FitMarker(room, dropped, enc);
    assert marker == FittedMarker(dropped, room, enc);
    return FinishedEchoLine(shown + marker + long.ending, dropped, long.sourceBytes + endingBytes);
  }

  /** A line's mirror depends on its bytes only, never on how they were split into segments. */
  method EchoLine(maxLineBytes: nat, segments: seq<seq<Byte>>, ending: seq<Byte>, enc: EchoEncoding)
    returns (finished: FinishedEchoLine)
    ensures finished == Finished(maxLineBytes, Joined(segments), ending, enc)
  {
    var limiter := new EchoLineLimiter(maxLineBytes);
    for i := 0 to |segments|
      invariant limiter.Valid() && limiter.maxLineBytes == maxLineBytes
      invariant limiter.source == Joined(segments[..i])
    {
      JoinedAppend(segments[..i], segments[i]);
      assert segments[..i + 1] == segments[..i] + [segments[i]];
      limiter.BoundLine(segments[i]);
    }
    assert segments[..|segments|] == segments;
    finished := limiter.FinishLine(ending, enc);
  }

  /**
   The accounting of a line that does not fit: source bytes minus dropped bytes are the
   kept prefix plus the emitted ending, and the payload is that prefix as the sink shows
   it, a marker, and that ending. A byte sink shows the kept bytes themselves.
   */
  lemma DroppedAccountsForTheRest(maxBytes: nat, source: seq<Byte>, ending: seq<Byte>, enc: EchoEncoding)
    requires |source| + |ending| > maxBytes
    ensures
      var finished := Finished(maxBytes, source, ending, enc);
      var long := Long(maxBytes, source, ending);
      var kept := Kept(long, enc);
      && kept <= source
      && finished.sourceBytes - finished.dropped == |kept| + |long.ending|
      && long.ending == (if |ending| <= maxBytes then ending else [])
      && ShownPrefix(long, enc) <= finished.payload && IsSuffix(long.ending, finished.payload)
  {
    var long := Long(maxBytes, source, ending);
    KeptOfSource(maxBytes, source, ending, enc);
    var room := Max(long.maxBytes - |ShownPrefix(long, enc)| - |long.ending|, 0);
    Ends(ShownPrefix(long, enc), FittedMarker(Dropped(long, enc), room, enc), long.ending);
  }

  lemma KeptOfSource(maxBytes: nat, source: seq<Byte>, ending: seq<Byte>, enc: EchoEncoding)
    ensures Kept(Long(maxBytes, source, ending), enc) <= source
  {
    var kept := Kept(Long(maxBytes, source, ending), enc);
    assert kept == source[..|kept|];
  }

  lemma Ends(a: seq<Byte>, b: seq<Byte>, c: seq<Byte>)
    ensures a <= a + b + c && IsSuffix(c, a + b + c)
  {
  }

  /** A byte sink shows the kept bytes themselves; a text sink shows them as its codec spells them. */
  lemma ShownSpellsKept(long: LongLine, enc: EchoEncoding)
    requires long.Valid()
    ensures !enc.isTextSink ==> ShownPrefix(long, enc) == Kept(long, enc)
    ensures enc.isTextSink ==> Encoded(Kept(long, enc), |Kept(long, enc)|, enc) == Some(ShownPrefix(long, enc))
  {
    if enc.isTextSink {
      var kept := Kept(long, enc);
      EncodedOfPrefix(long.line, |kept|, |kept|, enc);
    }
  }

  lemma {:induction false} EncodedOfPrefix(line: seq<Byte>, k: nat, n: nat, enc: EchoEncoding)
    requires n <= k <= |line|
    ensures Encoded(line[..k], n, enc) == Encoded(line, n, enc)
  {
    if n > 0 {
      EncodedOfPrefix(line, k, n - 1, enc);
      assert line[..k][..n] == line[..n];
    }
  }

  lemma WholeMarkerIffRoom(long: LongLine, shown: seq<Byte>, dropped: nat, endingBytes: nat, enc: EchoEncoding)
    ensures
      var marker := TruncationMarker(dropped, enc);
      var room := Max(long.maxBytes - |shown| - |long.ending|, 0);
      Assembled(long, shown, dropped, endingBytes, enc).payload == shown + marker + long.ending <==> |marker| <= room
  {
  }

  /**
   The whole marker is emitted, naming exactly the bytes dropped, if and only if the
   budget holds the ending beside it, for every line and ending below 10^15 bytes.
   */
  lemma MarkerNamesExactlyWhatWasDropped(maxBytes: nat, source: seq<Byte>, ending: seq<Byte>, enc: EchoEncoding)
    requires |source| + |ending| > maxBytes && |source| + |ending| < Power10(15)
    ensures
      var finished := Finished(maxBytes, source, ending, enc);
      var long := Long(maxBytes, source, ending);
      var shown := ShownPrefix(long, enc);
      var marker := TruncationMarker(finished.dropped, enc);
      finished.payload == shown + marker + long.ending <==> |marker| + |long.ending| <= maxBytes
  {
    var long := Long(maxBytes, source, ending);
    CapNeverDecides(long, enc);
    var dropped := Dropped(long, enc);
    assert dropped == long.LastCount(long.FirstCount(), MAX_ROUNDS, enc);
    WholeMarkerIffRoom(long, ShownPrefix(long, enc), dropped, |ending|, enc);
  }

  // ------------------------------------------------------- as much as fits is kept

  /** What a sink shows for the first `n` bytes of a line, if they end on a character. */
  function SinkBytes(source: seq<Byte>, n: nat, enc: EchoEncoding): (bytes: Option<seq<Byte>>)
    requires n <= |source|
  {
    if !enc.isTextSink then Some(source[..n])
    else if n > 0 && (enc.transcode(source[..n]).Fails? || enc.transcode(source[..n]).midCharacter) then None
    else Encoded(source, n, enc)
  }

  lemma SinkBytesOfFront(source: seq<Byte>, k: nat, n: nat, enc: EchoEncoding)
    requires n <= k <= |source|
    ensures SinkBytes(source[..k], n, enc) == SinkBytes(source, n, enc)
  {
    assert source[..k][..n] == source[..n];
    EncodedOfPrefix(source, k, n, enc);
  }

  /** A sink keeps the longest prefix it can show within a budget. */
  lemma KeptIsLongest(line: seq<Byte>, budget: nat, enc: EchoEncoding, n: nat)
    requires KeptLength(line, budget, enc) < n <= |line| && SinkBytes(line, n, enc).Some?
    ensures |SinkBytes(line, n, enc).value| > budget
  {
    if enc.isTextSink {
      assert !Fits(line, n, budget, enc);
    }
  }

  lemma KeptIsShown(line: seq<Byte>, budget: nat, enc: EchoEncoding)
    ensures SinkBytes(line, KeptLength(line, budget, enc), enc) == Some(Shown(line, budget, enc))
  {
    if enc.isTextSink {
      assert Fits(line, KeptLength(line, budget, enc), budget, enc);
    }
  }

  /** The last round left room for exactly the marker that is emitted. */
  lemma LastBudgetIsRoom(maxBytes: nat, source: seq<Byte>, ending: seq<Byte>, enc: EchoEncoding)
    requires |source| + |ending| > maxBytes && |source| + |ending| < Power10(15)
    ensures
      var long := Long(maxBytes, source, ending);
      LastBudget(long, enc) == Max(maxBytes - |long.ending| - |TruncationMarker(Dropped(long, enc), enc)|, 0)
  {
    var long := Long(maxBytes, source, ending);
    CapNeverDecides(long, enc);
    assert Dropped(long, enc) == long.LastCount(long.FirstCount(), MAX_ROUNDS, enc);
  }

  /** The ending a line too long for its budget still carries. */
  function EmittedEnding(maxBytes: nat, ending: seq<Byte>): (emitted: seq<Byte>)
  {
    if |ending| <= maxBytes then ending else []
  }

  /** The bytes of a long line's own text that were not dropped. */
  function KeptBytes(maxBytes: nat, ending: seq<Byte>, finished: FinishedEchoLine): int
  {
    finished.sourceBytes - finished.dropped - |EmittedEnding(maxBytes, ending)|
  }

  /** The whole marker has room beside the ending, so it is what was emitted. */
  predicate MarkerHasRoom(maxBytes: nat, ending: seq<Byte>, finished: FinishedEchoLine, enc: EchoEncoding)
  {
    && finished.dropped >= 0
    && |TruncationMarker(finished.dropped, enc)| + |EmittedEnding(maxBytes, ending)| <= maxBytes
  }

  /**
   Nothing is dropped that could have been kept: when the whole marker is emitted, any longer
   prefix of the retained bytes that ends on a character leaves no room for that marker and
   the ending, for every line and ending below 10^15 bytes.
   */
  lemma NoLongerPrefixFits(maxBytes: nat, source: seq<Byte>, ending: seq<Byte>, enc: EchoEncoding, n: nat)
    requires |source| + |ending| > maxBytes && |source| + |ending| < Power10(15)
    requires MarkerHasRoom(maxBytes, ending, Finished(maxBytes, source, ending, enc), enc)
    requires KeptBytes(maxBytes, ending, Finished(maxBytes, source, ending, enc)) < n <= Min(|source|, maxBytes)
    requires SinkBytes(source, n, enc).Some?
    ensures
      var marker := TruncationMarker(Finished(maxBytes, source, ending, enc).dropped, enc);
      |SinkBytes(source, n, enc).value| + |marker| + |EmittedEnding(maxBytes, ending)| > maxBytes
  {
    var long := Long(maxBytes, source, ending);
    LastBudgetIsRoom(maxBytes, source, ending, enc);
    SinkBytesOfFront(source, |long.line|, n, enc);
    KeptIsLongest(long.line, LastBudget(long, enc), enc, n);
  }

  /** What is kept is what is shown, as the sink spells a prefix of the line. */
  lemma ShownIsKeptPrefix(maxBytes: nat, source: seq<Byte>, ending: seq<Byte>, enc: EchoEncoding)
    ensures
      var long := Long(maxBytes, source, ending);
      && |Kept(long, enc)| <= |source|
      && SinkBytes(source, |Kept(long, enc)|, enc) == Some(ShownPrefix(long, enc))
  {
    var long := Long(maxBytes, source, ending);
    var k := KeptLength(long.line, LastBudget(long, enc), enc);
    SinkBytesOfFront(source, |long.line|, k, enc);
    KeptIsShown(long.line, LastBudget(long, enc), enc);
  }

  lemma FilledParts(long: LongLine, enc: EchoEncoding, room: nat)
    requires long.Valid() && !enc.isTextSink && LastBudget(long, enc) == room
    ensures ShownPrefix(long, enc) == Kept(long, enc) && |Kept(long, enc)| == Min(|long.line|, room)
  {
  }

  /** A truncated line with room for its whole marker is put together from what is shown, that marker and the ending. */
  lemma PutTogether(maxBytes: nat, source: seq<Byte>, ending: seq<Byte>, enc: EchoEncoding, marker: seq<Byte>)
    requires |source| + |ending| > maxBytes && |source| + |ending| < Power10(15)
    requires marker == TruncationMarker(Dropped(Long(maxBytes, source, ending), enc), enc)
    requires |marker| + |EmittedEnding(maxBytes, ending)| <= maxBytes
    ensures Finished(maxBytes, source, ending, enc).payload
         == ShownPrefix(Long(maxBytes, source, ending), enc) + marker + EmittedEnding(maxBytes, ending)
  {
    MarkerNamesExactlyWhatWasDropped(maxBytes, source, ending, enc);
  }

  lemma DroppedOfLong(maxBytes: nat, source: seq<Byte>, ending: seq<Byte>, enc: EchoEncoding)
    requires |source| + |ending| > maxBytes
    ensures Finished(maxBytes, source, ending, enc).dropped == Dropped(Long(maxBytes, source, ending), enc)
    ensures Long(maxBytes, source, ending).ending == EmittedEnding(maxBytes, ending)
  {
  }

  lemma FrontOfKept(source: seq<Byte>, kept: seq<Byte>, k: nat)
    requires kept <= source && |kept| == k
    ensures k <= |source| && kept == source[..k]
  {
  }

  /**
   A byte sink's mirror of a truncated line is the front of the line, the marker and the
   ending; `ByteSinkFills` says how much that is.
   */
  lemma ByteSinkShows(
    maxBytes: nat, source: seq<Byte>, ending: seq<Byte>, enc: EchoEncoding, marker: seq<Byte>, emitted: seq<Byte>, k: nat)
    requires !enc.isTextSink && |source| + |ending| > maxBytes && |source| + |ending| < Power10(15)
    requires marker == TruncationMarker(Dropped(Long(maxBytes, source, ending), enc), enc)
    requires emitted == EmittedEnding(maxBytes, ending) && |marker| + |emitted| <= maxBytes
    requires k == Min(|source|, maxBytes - |emitted| - |marker|)
    ensures k <= |source| && Finished(maxBytes, source, ending, enc).payload == source[..k] + marker + emitted
  {
    var long := Long(maxBytes, source, ending);
    LastBudgetIsRoom(maxBytes, source, ending, enc);
    DroppedOfLong(maxBytes, source, ending, enc);
    FilledParts(long, enc, maxBytes - |emitted| - |marker|);
    KeptOfSource(maxBytes, source, ending, enc);
    FrontOfKept(source, Kept(long, enc), k);
    PutTogether(maxBytes, source, ending, enc, marker);
  }

  lemma ThreeFill(a: seq<Byte>, b: seq<Byte>, c: seq<Byte>, n: nat)
    requires |a| + |b| + |c| == n
    ensures |a + b + c| == n
  {
  }

  /**
   A byte sink's mirror of a truncated line keeps as much of the line as there is room for, and fills
   its budget if the ending fits.
   */
  lemma ByteSinkIsFilled(maxBytes: nat, source: seq<Byte>, ending: seq<Byte>, enc: EchoEncoding)
    requires !enc.isTextSink && |source| + |ending| > maxBytes && |source| + |ending| < Power10(15)
    requires MarkerHasRoom(maxBytes, ending, Finished(maxBytes, source, ending, enc), enc)
    ensures
      var finished := Finished(maxBytes, source, ending, enc);
      var marker := TruncationMarker(finished.dropped, enc);
      var emitted := EmittedEnding(maxBytes, ending);
      var k := Min(|source|, maxBytes - |emitted| - |marker|);
      && 0 <= k <= |source| && finished.payload == source[..k] + marker + emitted
      && (|ending| <= maxBytes ==> |finished.payload| == maxBytes)
  {
    DroppedOfLong(maxBytes, source, ending, enc);
    var marker := TruncationMarker(Dropped(Long(maxBytes, source, ending), enc), enc);
    var emitted := EmittedEnding(maxBytes, ending);
    var k := Min(|source|, maxBytes - |emitted| - |marker|);
    ByteSinkShows(maxBytes, source, ending, enc, marker, emitted, k);
    if |ending| <= maxBytes {
      ThreeFill(source[..k], marker, emitted, maxBytes);
    }
  }

  /** A marker that does not fit whole gives way to the longest prefix of the ASCII one that does. */
  lemma FittedIsLongest(dropped: nat, budget: nat, enc: EchoEncoding, n: nat)
    requires |TruncationMarker(dropped, enc)| > budget && n <= |AsciiMarker(dropped)|
    ensures exists k: nat :: k <= |AsciiMarker(dropped)| && SinkBytes(AsciiMarker(dropped), k, enc) == Some(FittedMarker(dropped, budget, enc))
    ensures
      var ascii := AsciiMarker(dropped);
      SinkBytes(ascii, n, enc).Some? && |SinkBytes(ascii, n, enc).value| <= budget ==>
        exists k: nat :: n <= k <= |ascii| && SinkBytes(ascii, k, enc) == Some(FittedMarker(dropped, budget, enc))
  {
    var ascii := AsciiMarker(dropped);
    var k := KeptLength(ascii, budget, enc);
    KeptIsShown(ascii, budget, enc);
    if k < n && SinkBytes(ascii, n, enc).Some? {
      KeptIsLongest(ascii, budget, enc, n);
    }
  }

  lemma SixtyFive()
    ensures Decimal(65) == [54, 53]
  {
    assert Decimal(6) == [54];
  }

  lemma MarkerTailReads()
    ensures MarkerTail(65)
         == [32, 91, 116, 114, 117, 110, 99, 97, 116, 101, 100, 32, 54, 53, 32, 98, 121, 116, 101, 115, 93]
  {
    SixtyFive();
  }

  /** The marker's own words: an ellipsis, "[truncated", the count, "bytes]". */
  lemma MarkerReads(enc: EchoEncoding)
    ensures
      var tail: seq<Byte> := [32, 91, 116, 114, 117, 110, 99, 97, 116, 101, 100, 32, 54, 53, 32, 98, 121, 116, 101, 115, 93];
      && AsciiMarker(65) == [46, 46, 46] + tail
      && TruncationMarker(65, enc) == (if enc.ellipsis.Some? then enc.ellipsis.value else [46, 46, 46]) + tail
  {
    MarkerTailReads();
    assert Ascii("...") == [46, 46, 46];
  }

  /** A caller can tell beforehand: room for a marker naming the whole line is always enough. */
  lemma RoomForTheWorstMarkerSuffices(maxBytes: nat, source: seq<Byte>, ending: seq<Byte>, enc: EchoEncoding)
    requires |source| + |ending| > maxBytes && |source| + |ending| < Power10(15)
    requires |TruncationMarker(|source|, enc)| + |ending| <= maxBytes
    ensures
      var finished := Finished(maxBytes, source, ending, enc);
      finished.payload
        == ShownPrefix(Long(maxBytes, source, ending), enc) + TruncationMarker(finished.dropped, enc) + ending
  {
    MarkerNamesExactlyWhatWasDropped(maxBytes, source, ending, enc);
    var dropped := Dropped(Long(maxBytes, source, ending), enc);
    DecimalMonotone(dropped, |source|);
    MarkerLength(dropped, enc);
    MarkerLength(|source|, enc);
  }

  // ---------------------------------------------------------------- echo segments

  /** A body and the terminator that ended it, if one did. */
  datatype Segment = Segment(body: seq<Byte>, ending: Option<seq<Byte>>)
  {
    function Source(): seq<Byte>
    {
      body + (if ending.Some? then ending.value else [])
    }
  }

  const LF: Byte := 10
  const CR: Byte := 13

  function Sources(segments: seq<Segment>): seq<Byte>
  {
    if segments == [] then [] else Sources(segments[..|segments| - 1]) + segments[|segments| - 1].Source()
  }

  predicate CompleteLine(s: Segment)
  {
    && LF !in s.body
    && (s.ending == Some([CR, LF]) || (s.ending == Some([LF]) && (s.body == [] || s.body[|s.body| - 1] != CR)))
  }

  /** A line body and its terminator, the CR before the LF counted with the terminator. */
  function Terminated(body: seq<Byte>): (segment: Segment)
    requires LF !in body
    ensures CompleteLine(segment)
  {
    if body != [] && body[|body| - 1] == CR then Segment(body[..|body| - 1], Some([CR, LF]))
    else Segment(body, Some([LF]))
  }

  lemma TerminatedSource(body: seq<Byte>)
    requires LF !in body
    ensures Terminated(body).Source() == body + [LF]
  {
    if body != [] && body[|body| - 1] == CR {
      assert body == body[..|body| - 1] + [CR];
      assert [CR] + [LF] == [CR, LF];
      ConcatAssociative(body[..|body| - 1], [CR], [LF]);
    }
  }

  lemma TakeLine(chunk: seq<Byte>, start: nat, end: nat)
    requires start <= end < |chunk|
    ensures chunk[..end + 1] == chunk[..start] + (chunk[start..end] + [chunk[end]])
  {
  }

  predicate AllComplete(segments: seq<Segment>)
  {
    forall i :: 0 <= i < |segments| ==> CompleteLine(segments[i])
  }

  /** `_split_echo_segments`: every byte of a chunk, cut after each LF with its CR. */
  method SplitEchoSegments(chunk: seq<Byte>) returns (segments: seq<Segment>)
    ensures Sources(segments) == chunk
    ensures segments != [] ==>
      var last := segments[|segments| - 1];
      && AllComplete(segments[..|segments| - 1])
      && (CompleteLine(last) || (last.ending.None? && last.body != [] && LF !in last.body))
  {
    var start;
    segments, start := SplitTerminated(chunk);
    if start < |chunk| {
      AddRest(chunk, segments, start);
      var last := Segment(chunk[start..], None);
      assert (segments + [last])[..|segments|] == segments;
      segments := segments + [last];
    } else {
      assert chunk[..start] == chunk;
    }
  }

  /** The search loop of `_split_echo_segments`: the terminated lines, and where the rest starts. */
  method SplitTerminated(chunk: seq<Byte>) returns (segments: seq<Segment>, start: nat)
    ensures start <= |chunk| && Sources(segments) == chunk[..start]
    ensures AllComplete(segments) && LF !in chunk[start..]
  {
    segments, start := [], 0;
    while true
      invariant start <= |chunk| && Sources(segments) == chunk[..start]
      invariant AllComplete(segments)
      decreases |chunk| - start
    {
      var end := FindByte(chunk, LF, start);
      if end == |chunk| {
        return;
      }
      AddLine(chunk, segments, start, end);
      segments := segments + [Terminated(chunk[start..end])];
      start := end + 1;
    }
  }

  lemma SourcesAppend(segments: seq<Segment>, segment: Segment)
    ensures Sources(segments + [segment]) == Sources(segments) + segment.Source()
  {
    assert (segments + [segment])[..|segments|] == segments;
  }

  lemma AddLine(chunk: seq<Byte>, segments: seq<Segment>, start: nat, end: nat)
    requires start <= end < |chunk| && chunk[end] == LF && LF !in chunk[start..end]
    requires Sources(segments) == chunk[..start]
    ensures Sources(segments + [Terminated(chunk[start..end])]) == chunk[..end + 1]
  {
    SourcesAppend(segments, Terminated(chunk[start..end]));
    TerminatedSource(chunk[start..end]);
    TakeLine(chunk, start, end);
  }

  lemma AddRest(chunk: seq<Byte>, segments: seq<Segment>, start: nat)
    requires start <= |chunk| && Sources(segments) == chunk[..start]
    ensures Sources(segments + [Segment(chunk[start..], None)]) == chunk
  {
    SourcesAppend(segments, Segment(chunk[start..], None));
    assert chunk[start..] + [] == chunk[start..];
    assert chunk == chunk[..start] + chunk[start..];
  }

  /** The position of the first `b` at or after `start`, or the length. */
  method FindByte(data: seq<Byte>, b: Byte, start: nat) returns (at: nat)
    requires start <= |data|
    ensures start <= at <= |data| && b !in data[start..at] && (at < |data| ==> data[at] == b)
  {
    at := start;
    while at < |data| && data[at] != b
      invariant start <= at <= |data| && b !in data[start..at]
    {
      at := at + 1;
    }
  }
}
