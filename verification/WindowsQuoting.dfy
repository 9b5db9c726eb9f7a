/**
 Quoting command tokens for a Windows command line, against the argument rules of the
 Microsoft C runtime (benchmarks/pipeline_throughput_runner.py).
 */
module WindowsQuoting {
  import opened Prelude

  predicate SafeChar(c: char)
  {
    || 'a' <= c <= 'z' || 'A' <= c <= 'Z' || '0' <= c <= '9'
    || c == '.' || c == '_' || c == ':' || c == '\\' || c == '/' || c == '-'
  }

  predicate Safe(token: string)
  {
    token != "" && forall i :: 0 <= i < |token| ==> SafeChar(token[i])
  }

  function Slashes(n: nat): (s: string)
    ensures |s| == n && forall i :: 0 <= i < n ==> s[i] == '\\'
  {
    seq(n, _ => '\\')
  }

  // ---------------------------------------------------------------- the quoter

  /** What follows the opening quote for the rest of a token, `pending` backslashes being held back. */
  function Body(rest: string, pending: nat): (s: string)
  {
    if rest == "" then Slashes(2 * pending)
    else if rest[0] == '\\' then Body(rest[1..], pending + 1)
    else if rest[0] == '"' then Slashes(2 * pending + 1) + "\"" + Body(rest[1..], 0)
    else Slashes(pending) + [rest[0]] + Body(rest[1..], 0)
  }

  function Quoted(token: string): (s: string)
    ensures s != ""
  {
    if Safe(token) then token else "\"" + Body(token, 0) + "\""
  }

  /** `_quote_windows_cmd_token`: one pass over the token, with a count of backslashes held back. */
  method QuoteToken(token: string) returns (s: string)
    ensures s == Quoted(token)
  {
    if Safe(token) {
      return token;
    }
    var quoted := ["\""];
    var backslashes := 0;
    for i := 0 to |token|
      invariant Joined(quoted) + Body(token[i..], backslashes) == "\"" + Body(token, 0)
    {
      var c := token[i];
      assert token[i..][0] == c && token[i..][1..] == token[i + 1..];
      if c == '\\' {
        backslashes := backslashes + 1;
        continue;
      }
      var piece := if c == '"' then Slashes(2 * backslashes + 1) + "\"" else Slashes(backslashes) + [c];
      JoinedAppend(quoted, piece);
      ConcatAssociative(Joined(quoted), piece, Body(token[i + 1..], 0));
      quoted := quoted + [piece];
      backslashes := 0;
    }
    JoinedAppend(quoted, Slashes(2 * backslashes) + "\"");
    assert token[|token|..] == "";
    ConcatAssociative(Joined(quoted), Slashes(2 * backslashes), "\"");
    return Joined(quoted + [Slashes(2 * backslashes) + "\""]);
  }

  /** The space-joined command line. */
  function CommandLine(tokens: seq<string>): (s: string)
  {
    if tokens == [] then ""
    else if |tokens| == 1 then Quoted(tokens[0])
    else Quoted(tokens[0]) + " " + CommandLine(tokens[1..])
  }

  // ------------------------------------------- the runtime's rules, as a parser

  predicate Blank(c: char) { c == ' ' || c == '\t' }

  /** How many backslashes stand at the front. */
  function SlashRun(s: string): (n: nat)
    ensures n <= |s| && forall i :: 0 <= i < n ==> s[i] == '\\'
    ensures n < |s| ==> s[n] != '\\'
  {
    if s == "" || s[0] != '\\' then 0 else 1 + SlashRun(s[1..])
  }

  /**
   What a doubled quote within quoting is: a close and a reopening, as the documented rules
   alone would have it; a literal quote that also closes, before 2008; a literal quote, since.
   */
  datatype DoubledQuote = Reopens | LiteralAndCloses | Literal

  /**
   One argument and what follows it. Backslashes are literal unless a quote follows
   them: then each pair stands for one, and an odd one makes the quote literal. Other
   quotes open and close quoting, within which blanks are literal; a doubled one within
   quoting is read by the runtime's own rule.
   */
  function ScanArgument(s: string, quoting: bool, doubled: DoubledQuote): (result: (string, string))
    ensures |result.1| <= |s|
    ensures s != "" && (quoting || !Blank(s[0])) ==> |result.1| < |s|
    decreases |s|
  {
    if s == "" || (!quoting && Blank(s[0])) then ("", s)
    else if s[0] == '\\' then
      var n := SlashRun(s);
      if n < |s| && s[n] == '"' then
        if n % 2 == 1 then
          var (more, rest) := ScanArgument(s[n + 1..], quoting, doubled);
          (Slashes(n / 2) + "\"" + more, rest)
        else
          var (more, rest) := ScanArgument(s[n..], quoting, doubled);
          (Slashes(n / 2) + more, rest)
      else
        var (more, rest) := ScanArgument(s[n..], quoting, doubled);
        (Slashes(n) + more, rest)
    else if s[0] == '"' then
      if quoting && !doubled.Reopens? && |s| > 1 && s[1] == '"' then
        var (more, rest) := ScanArgument(s[2..], doubled.Literal?, doubled);
        ("\"" + more, rest)
      else ScanArgument(s[1..], !quoting, doubled)
    else
      var (more, rest) := ScanArgument(s[1..], quoting, doubled);
      ([s[0]] + more, rest)
  }

  /** Every argument of a command line. */
  function ParseArguments(s: string, doubled: DoubledQuote): (arguments: seq<string>)
    decreases |s|
  {
    if s == "" then []
    else if Blank(s[0]) then ParseArguments(s[1..], doubled)
    else
      var (argument, rest) := ScanArgument(s, false, doubled);
      [argument] + ParseArguments(rest, doubled)
  }

  // ------------------------------------------------------------- the round trip

  /** What may follow a token: the end, or the joining space. */
  predicate Ends(tail: string) { tail == "" || Blank(tail[0]) }

  lemma {:induction false} SlashRunIs(n: nat, after: string)
    requires after == "" || after[0] != '\\'
    ensures SlashRun(Slashes(n) + after) == n
  {
    var s := Slashes(n) + after;
    assert forall i :: 0 <= i < n ==> s[i] == '\\';
    assert |s| > n ==> s[n] == after[0];
  }

  /** Backslashes before anything but a quote are read literally. */
  lemma ScanSlashes(n: nat, after: string, quoting: bool, doubled: DoubledQuote)
    requires after != "" && after[0] != '\\' && after[0] != '"'
    ensures
      var (more, rest) := ScanArgument(after, quoting, doubled);
      ScanArgument(Slashes(n) + after, quoting, doubled) == (Slashes(n) + more, rest)
  {
    var s := Slashes(n) + after;
    if n == 0 {
      assert s == after;
      assert Slashes(0) + ScanArgument(after, quoting, doubled).0 == ScanArgument(after, quoting, doubled).0;
    } else {
      ScanSlashesLiterally(n, after, quoting, doubled);
    }
  }

  /** Backslashes before a quote are read in pairs; an odd one makes the quote literal. */
  lemma ScanSlashesBeforeQuote(n: nat, after: string, quoting: bool, doubled: DoubledQuote)
    requires n > 0
    ensures
      var s := Slashes(n) + "\"" + after;
      var (literal, closing) := (ScanArgument(after, quoting, doubled), ScanArgument("\"" + after, quoting, doubled));
      ScanArgument(s, quoting, doubled)
        == if n % 2 == 1 then (Slashes(n / 2) + "\"" + literal.0, literal.1) else (Slashes(n / 2) + closing.0, closing.1)
  {
    var s := Slashes(n) + "\"" + after;
    assert s == Slashes(n) + ("\"" + after);
    SlashRunIs(n, "\"" + after);
    assert s[n..] == "\"" + after && s[n + 1..] == after && s[0] == '\\' && s[n] == '"';
  }

  /** The closing quote of a token ends it. */
  lemma ScanClosing(tail: string, doubled: DoubledQuote)
    requires Ends(tail)
    ensures ScanArgument("\"" + tail, true, doubled) == ("", tail)
  {
    var s := "\"" + tail;
    assert s[1..] == tail;
    assert |s| > 1 ==> s[1] == tail[0];
  }

  lemma ScanTokenEnd(pending: nat, tail: string, doubled: DoubledQuote)
    requires Ends(tail)
    ensures ScanArgument(Slashes(2 * pending) + "\"" + tail, true, doubled) == (Slashes(pending), tail)
  {
    ScanClosing(tail, doubled);
    if pending == 0 {
      assert Slashes(0) + "\"" + tail == "\"" + tail;
      assert Slashes(0) == "";
    } else {
      ScanSlashesBeforeQuote(2 * pending, tail, true, doubled);
      assert Slashes(pending) + "" == Slashes(pending);
    }
  }

  lemma ScanLiteralQuote(pending: nat, more: string, read: string, tail: string, doubled: DoubledQuote)
    requires ScanArgument(more, true, doubled) == (read, tail)
    ensures ScanArgument(Slashes(2 * pending + 1) + "\"" + more, true, doubled) == (Slashes(pending) + ("\"" + read), tail)
  {
    assert (2 * pending + 1) / 2 == pending && (2 * pending + 1) % 2 == 1;
    ScanSlashesBeforeQuote(2 * pending + 1, more, true, doubled);
    ConcatAssociative(Slashes(pending), "\"", read);
  }

  lemma ScanLiteral(pending: nat, c: char, more: string, read: string, tail: string, doubled: DoubledQuote)
    requires c != '\\' && c != '"' && ScanArgument(more, true, doubled) == (read, tail)
    ensures ScanArgument(Slashes(pending) + [c] + more, true, doubled) == (Slashes(pending) + ([c] + read), tail)
  {
    assert ([c] + more)[1..] == more;
    ScanSlashes(pending, [c] + more, true, doubled);
    assert Slashes(pending) + [c] + more == Slashes(pending) + ([c] + more);
  }

  lemma FirstAndRest(s: string, front: string)
    requires s != ""
    ensures front + ([s[0]] + s[1..]) == front + s
  {
    assert [s[0]] + s[1..] == s;
  }

  lemma Reassociate(a: string, b: string, c: string, d: string)
    ensures a + b + c + d == a + b + (c + d)
    ensures a + b + c == a + (b + c)
  {
  }

  /** Inside quotes, the rest of a token and the backslashes held back are read as they were. */
  lemma {:induction false} ScanBody(rest: string, pending: nat, tail: string, doubled: DoubledQuote)
    requires Ends(tail)
    ensures ScanArgument(Body(rest, pending) + ("\"" + tail), true, doubled) == (Slashes(pending) + rest, tail)
    decreases |rest|
  {
    if rest == "" {
      ScanTokenEnd(pending, tail, doubled);
      Reassociate(Slashes(2 * pending), "\"", tail, "");
      assert Slashes(pending) + rest == Slashes(pending);
    } else if rest[0] == '\\' {
      ScanBody(rest[1..], pending + 1, tail, doubled);
      assert Slashes(pending + 1) + rest[1..] == Slashes(pending) + rest;
    } else {
      var after := Body(rest[1..], 0);
      ScanBody(rest[1..], 0, tail, doubled);
      assert Slashes(0) + rest[1..] == rest[1..];
      FirstAndRest(rest, Slashes(pending));
      if rest[0] == '"' {
        Reassociate(Slashes(2 * pending + 1), "\"", after, "\"" + tail);
        ScanLiteralQuote(pending, after + ("\"" + tail), rest[1..], tail, doubled);
      } else {
        Reassociate(Slashes(pending), [rest[0]], after, "\"" + tail);
        ScanLiteral(pending, rest[0], after + ("\"" + tail), rest[1..], tail, doubled);
      }
    }
  }

  /** A token of safe characters is read as it stands. */
  lemma {:induction false} ScanSafe(token: string, tail: string, doubled: DoubledQuote)
    requires Ends(tail) && forall i :: 0 <= i < |token| ==> SafeChar(token[i])
    ensures ScanArgument(token + tail, false, doubled) == (token, tail)
    decreases |token|
  {
    if token == "" {
      assert token + tail == tail;
    } else if token[0] == '\\' {
      var n := SlashRun(token);
      ScanSafe(token[n..], tail, doubled);
      ScanSafeSlashes(token, n, tail, doubled);
    } else {
      ScanSafe(token[1..], tail, doubled);
      ScanSafeChar(token, tail, doubled);
    }
  }

  lemma ScanSafeChar(token: string, tail: string, doubled: DoubledQuote)
    requires token != "" && SafeChar(token[0]) && token[0] != '\\'
    requires ScanArgument(token[1..] + tail, false, doubled) == (token[1..], tail)
    ensures ScanArgument(token + tail, false, doubled) == (token, tail)
  {
    DropWithinFront(token, tail, 1);
    FirstAndRest(token, "");
    assert "" + token == token && "" + ([token[0]] + token[1..]) == [token[0]] + token[1..];
  }

  /** A run of backslashes that no quote follows is read literally. */
  lemma ScanSlashesLiterally(n: nat, after: string, quoting: bool, doubled: DoubledQuote)
    requires n > 0 && (after == "" || (after[0] != '\\' && after[0] != '"'))
    ensures
      var (more, rest) := ScanArgument(after, quoting, doubled);
      ScanArgument(Slashes(n) + after, quoting, doubled) == (Slashes(n) + more, rest)
  {
    var s := Slashes(n) + after;
    SlashRunIs(n, after);
    assert s[n..] == after && s[0] == '\\';
    assert n < |s| ==> s[n] == after[0];
  }

  lemma ScanSafeSlashes(token: string, n: nat, tail: string, doubled: DoubledQuote)
    requires token != "" && token[0] == '\\' && n == SlashRun(token)
    requires Ends(tail) && forall i :: 0 <= i < |token| ==> SafeChar(token[i])
    requires ScanArgument(token[n..] + tail, false, doubled) == (token[n..], tail)
    ensures ScanArgument(token + tail, false, doubled) == (token, tail)
  {
    assert token == Slashes(n) + token[n..];
    ConcatAssociative(Slashes(n), token[n..], tail);
    AfterSlashes(token, n, tail);
    ScanSlashesLiterally(n, token[n..] + tail, false, doubled);
  }

  lemma AfterSlashes(token: string, n: nat, tail: string)
    requires n == SlashRun(token) && Ends(tail) && forall i :: 0 <= i < |token| ==> SafeChar(token[i])
    ensures var after := token[n..] + tail; after == "" || (after[0] != '\\' && after[0] != '"')
  {
    if n < |token| {
      assert (token[n..] + tail)[0] == token[n];
    } else {
      assert token[n..] + tail == tail;
    }
  }

  /** One quoted token is read back, and nothing after it is touched. */
  lemma ScanQuoted(token: string, tail: string, doubled: DoubledQuote)
    requires Ends(tail)
    ensures ScanArgument(Quoted(token) + tail, false, doubled) == (token, tail)
  {
    if Safe(token) {
      ScanSafe(token, tail, doubled);
    } else {
      var inner := Body(token, 0) + ("\"" + tail);
      assert Quoted(token) + tail == "\"" + inner;
      assert ("\"" + inner)[1..] == inner;
      ScanBody(token, 0, tail, doubled);
      assert Slashes(0) + token == token;
    }
  }

  /**
   The round trip, for every list of arguments under each rule for a doubled quote:
   parsing the command line returns exactly the tokens it was rendered from.
   */
  lemma {:induction false} ParseRendered(tokens: seq<string>, doubled: DoubledQuote)
    ensures ParseArguments(CommandLine(tokens), doubled) == tokens
    decreases |tokens|
  {
    if tokens != [] {
      ParseRendered(tokens[1..], doubled);
      if |tokens| == 1 {
        ParseOnly(tokens[0], doubled);
        assert tokens == [tokens[0]];
      } else {
        ParseAndMore(tokens[0], CommandLine(tokens[1..]), doubled);
        assert tokens == [tokens[0]] + tokens[1..];
      }
    }
  }

  lemma ParseOnly(token: string, doubled: DoubledQuote)
    ensures ParseArguments(Quoted(token), doubled) == [token]
  {
    assert Quoted(token) + "" == Quoted(token);
    ParseFirst(token, "", doubled);
  }

  /** Parsing goes on past the joining space. */
  lemma ParseAndMore(token: string, after: string, doubled: DoubledQuote)
    ensures ParseArguments(Quoted(token) + " " + after, doubled) == [token] + ParseArguments(after, doubled)
  {
    ConcatAssociative(Quoted(token), " ", after);
    ParseFirst(token, " " + after, doubled);
    assert (" " + after)[1..] == after;
  }

  /** Parsing a line that opens with a quoted token. */
  lemma ParseFirst(token: string, tail: string, doubled: DoubledQuote)
    requires Ends(tail)
    ensures ParseArguments(Quoted(token) + tail, doubled) == [token] + ParseArguments(tail, doubled)
  {
    ScanQuoted(token, tail, doubled);
    QuotedStart(token);
    assert (Quoted(token) + tail)[0] == Quoted(token)[0];
  }

  lemma QuotedStart(token: string)
    ensures !Blank(Quoted(token)[0])
  {
  }

  /** Different token lists never render to the same command line. */
  lemma RenderingIsInjective(a: seq<string>, b: seq<string>)
    requires CommandLine(a) == CommandLine(b)
    ensures a == b
  {
    ParseRendered(a, Literal);
    ParseRendered(b, Literal);
  }

  // ----------------------------------------------------------- what is quoted

  lemma {:induction false} BodyIsNoShorter(rest: string, pending: nat)
    ensures |Body(rest, pending)| >= |rest| + pending
    decreases |rest|
  {
    if rest != "" {
      BodyIsNoShorter(rest[1..], if rest[0] == '\\' then pending + 1 else 0);
    }
  }

  /** Letters, digits, and `-` `.` `/` `:` `\` `_`, by their code points. */
  predicate IsPlainCode(c: int)
  {
    0x2D <= c <= 0x3A || 0x41 <= c <= 0x5A || c == 0x5C || c == 0x5F || 0x61 <= c <= 0x7A
  }

  /**
   A token stands bare exactly when it is not empty and holds nothing else; every other one gains at
   least its quotes.
   */
  lemma BareIffPlain(token: string)
    ensures Quoted(token) == token <==> token != "" && forall i :: 0 <= i < |token| ==> IsPlainCode(token[i] as int)
    ensures Quoted(token) != token ==> |Quoted(token)| >= |token| + 2
  {
    BodyIsNoShorter(token, 0);
    assert forall i :: 0 <= i < |token| ==> (SafeChar(token[i]) <==> IsPlainCode(token[i] as int));
  }

  /** What each rule makes of a doubled quote within quoting, whatever follows it. */
  lemma DoubledQuoteRead(more: string)
    ensures ScanArgument("\"\"" + more, true, Reopens) == ScanArgument(more, true, Reopens)
    ensures
      var (read, rest) := ScanArgument(more, false, LiteralAndCloses);
      ScanArgument("\"\"" + more, true, LiteralAndCloses) == ("\"" + read, rest)
    ensures
      var (read, rest) := ScanArgument(more, true, Literal);
      ScanArgument("\"\"" + more, true, Literal) == ("\"" + read, rest)
  {
    var s := "\"\"" + more;
    assert s[1..] == "\"" + more && s[2..] == more && ("\"" + more)[1..] == more;
  }
}
