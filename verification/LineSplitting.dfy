/** The CR, LF and CRLF line contract (cuprum/_line_splitting.py). */
module LineSplitting {
  import opened Prelude

  /** Completed lines and what is left. */
  datatype Lines = Lines(complete: seq<string>, rest: string)

  /** The lines of `text`, when `line` is the part of the first one already seen. */
  function SplitAfter(line: string, text: string): (r: Lines)
    decreases |text|
  {
    if text == "" then Lines([], line)
    else if text[0] == '\n' then Prepend(line, SplitAfter("", text[1..]))
    else if text[0] == '\r' then
      if |text| == 1 then Lines([], line + "\r")
      else if text[1] == '\n' then Prepend(line, SplitAfter("", text[2..]))
      else Prepend(line, SplitAfter("", text[1..]))
    else SplitAfter(line + [text[0]], text[1..])
  }

  function Prepend(line: string, lines: Lines): Lines
  {
    lines.(complete := [line] + lines.complete)
  }

  function Split(text: string): Lines { SplitAfter("", text) }

  function After(lines: seq<string>, more: Lines): Lines
  {
    more.(complete := lines + more.complete)
  }

  /** `_split_complete_lines`: one scan with the start of the current line and an index. */
  method SplitCompleteLines(text: string) returns (lines: seq<string>, rest: string)
    ensures Lines(lines, rest) == Split(text)
  {
    lines := [];
    var start, index := 0, 0;
    while index < |text|
      invariant start <= index <= |text|
      invariant Split(text) == After(lines, SplitAfter(text[start..index], text[index..]))
    {
      var character := text[index];
      var tail := text[index..];
      assert tail[0] == character && tail[1..] == text[index + 1..];
      ghost var line := text[start..index];
      if character == '\n' {
        AfterPrepend(lines, line, SplitAfter("", tail[1..]));
        lines := lines + [text[start..index]];
        start := index + 1;
      } else if character == '\r' {
        if index + 1 == |text| {
          assert text[start..] == line + "\r";
          return lines, text[start..];
        }
        lines := lines + [text[start..index]];
        if text[index + 1] == '\n' {
          assert tail[2..] == text[index + 2..];
          AfterPrepend(lines[..|lines| - 1], line, SplitAfter("", tail[2..]));
          index := index + 1;
        } else {
          AfterPrepend(lines[..|lines| - 1], line, SplitAfter("", tail[1..]));
        }
        start := index + 1;
      } else {
        assert text[start..index + 1] == line + [character];
      }
      index := index + 1;
      assert start == index ==> text[start..index] == "";
    }
    assert text[index..] == "";
    rest := text[start..];
  }

  lemma AfterPrepend(lines: seq<string>, line: string, more: Lines)
    ensures After(lines, Prepend(line, more)) == After(lines + [line], more)
  {
    assert lines + ([line] + more.complete) == (lines + [line]) + more.complete;
  }

  /** No terminator in sight. */
  predicate Plain(text: string)
  {
    '\n' !in text && '\r' !in text
  }

  /** A text without terminators only extends the line in progress. */
  lemma {:induction false} PlainExtends(line: string, plain: string, text: string)
    requires Plain(plain)
    ensures SplitAfter(line, plain + text) == SplitAfter(line + plain, text)
    decreases |plain|
  {
    if plain == "" {
      assert plain + text == text && line + plain == line;
    } else {
      PlainExtends(line + [plain[0]], plain[1..], text);
      assert (plain + text)[0] == plain[0] && (plain + text)[1..] == plain[1..] + text;
      assert (line + [plain[0]]) + plain[1..] == line + plain;
    }
  }

  /** Splitting may stop anywhere and go on from the remainder it left. */
  lemma {:induction false} SplitResumes(line: string, a: string, b: string)
    requires Plain(line)
    ensures
      var first := SplitAfter(line, a);
      SplitAfter(line, a + b) == After(first.complete, Split(first.rest + b))
    decreases |a|
  {
    var whole := a + b;
    if a == "" {
      assert whole == b;
      PlainExtends("", line, b);
      assert "" + line == line;
      AfterNothing(SplitAfter(line, b));
    } else if a == "\r" {
      PlainExtends("", line, whole);
      assert "" + line == line && line + whole == (line + "\r") + b;
      AfterNothing(SplitAfter(line, whole));
    } else {
      DropWithinFront(a, b, 1);
      if a[0] == '\n' {
        SplitResumes("", a[1..], b);
        PrependAfter(line, SplitAfter("", a[1..]), b);
      } else if a[0] == '\r' {
        DropWithinFront(a, b, 2);
        var skip := if a[1] == '\n' then 2 else 1;
        SplitResumes("", a[skip..], b);
        PrependAfter(line, SplitAfter("", a[skip..]), b);
      } else {
        SplitResumes(line + [a[0]], a[1..], b);
      }
    }
  }

  lemma AfterNothing(more: Lines)
    ensures After([], more) == more
  {
    assert [] + more.complete == more.complete;
  }

  lemma PrependAfter(line: string, first: Lines, b: string)
    ensures Prepend(line, After(first.complete, Split(first.rest + b)))
         == After(Prepend(line, first).complete, Split(first.rest + b))
  {
    var more := Split(first.rest + b).complete;
    assert [line] + (first.complete + more) == ([line] + first.complete) + more;
  }

  /** A stream split chunk by chunk, each remainder carried into the next chunk. */
  function SplitChunks(rest: string, chunks: seq<string>): (r: Lines)
    decreases |chunks|
  {
    if chunks == [] then Lines([], rest)
    else
      var first := Split(rest + chunks[0]);
      After(first.complete, SplitChunks(first.rest, chunks[1..]))
  }

  /** Chunk independence, for every text and every way to cut it, even inside a CRLF. */
  lemma {:induction false} ChunkingIsInvisible(rest: string, chunks: seq<string>)
    requires Split(rest) == Lines([], rest)
    ensures SplitChunks(rest, chunks) == Split(rest + Joined(chunks))
    decreases |chunks|
  {
    if chunks == [] {
      assert rest + Joined(chunks) == rest;
    } else {
      var head := rest + chunks[0];
      var first := Split(head);
      RestIsPending("", head);
      ChunkingIsInvisible(first.rest, chunks[1..]);
      SplitResumes("", head, Joined(chunks[1..]));
      assert head + Joined(chunks[1..]) == rest + Joined(chunks);
    }
  }

  /** A remainder is a line still open: at most a final CR, no other terminator, and splitting it yields nothing. */
  lemma {:induction false} RestIsPending(line: string, text: string)
    requires Plain(line)
    ensures
      var rest := SplitAfter(line, text).rest;
      && Split(rest) == Lines([], rest)
      && (Plain(rest) || (rest[|rest| - 1] == '\r' && Plain(rest[..|rest| - 1])))
    decreases |text|
  {
    if text == "" {
      PlainExtends("", line, "");
      assert line + "" == line && "" + line == line;
    } else if text == "\r" {
      PlainExtends("", line, "\r");
      assert "" + line == line && (line + "\r")[..|line|] == line;
    } else if text[0] == '\n' {
      RestIsPending("", text[1..]);
    } else if text[0] == '\r' {
      RestIsPending("", text[if text[1] == '\n' then 2 else 1..]);
    } else {
      RestIsPending(line + [text[0]], text[1..]);
    }
  }

  /** Every terminator written as LF, except a final CR, which may yet become a CRLF. */
  function Normalized(text: string): string
    decreases |text|
  {
    if text == "" then ""
    else if text[0] == '\r' && |text| > 1 then "\n" + Normalized(text[if text[1] == '\n' then 2 else 1..])
    else [text[0]] + Normalized(text[1..])
  }

  /** Lines with their terminators back. */
  function Unsplit(lines: Lines): string
    decreases |lines.complete|
  {
    if lines.complete == [] then lines.rest
    else lines.complete[0] + "\n" + Unsplit(lines.(complete := lines.complete[1..]))
  }

  /** Nothing is lost or invented: putting the terminators back gives the text. */
  lemma {:induction false} UnsplitIsText(line: string, text: string)
    ensures Unsplit(SplitAfter(line, text)) == line + Normalized(text)
    decreases |text|
  {
    if text == "" {
      assert line + "" == line;
    } else if text == "\r" {
      assert text[1..] == "";
      assert Normalized(text) == "\r";
    } else if text[0] == '\n' {
      UnsplitIsText("", text[1..]);
      UnsplitPrepend(line, SplitAfter("", text[1..]), Normalized(text[1..]));
    } else if text[0] == '\r' {
      var after := text[if text[1] == '\n' then 2 else 1..];
      UnsplitIsText("", after);
      UnsplitPrepend(line, SplitAfter("", after), Normalized(after));
    } else {
      UnsplitIsText(line + [text[0]], text[1..]);
      ConcatAssociative(line, [text[0]], Normalized(text[1..]));
    }
  }

  lemma UnsplitPrepend(line: string, lines: Lines, normal: string)
    requires Unsplit(lines) == "" + normal
    ensures Unsplit(Prepend(line, lines)) == line + ("\n" + normal)
  {
    var more := Prepend(line, lines);
    assert more.complete[1..] == lines.complete;
    assert more.(complete := lines.complete) == lines;
    assert "" + normal == normal;
    ConcatAssociative(line, "\n", normal);
  }

  /** No completed line holds a terminator. */
  lemma {:induction false} CompletedLinesArePlain(line: string, text: string)
    requires Plain(line)
    ensures forall l :: l in SplitAfter(line, text).complete ==> Plain(l)
    decreases |text|
  {
    if text == "" || text == "\r" {
    } else if text[0] == '\n' {
      CompletedLinesArePlain("", text[1..]);
    } else if text[0] == '\r' {
      CompletedLinesArePlain("", text[if text[1] == '\n' then 2 else 1..]);
    } else {
      CompletedLinesArePlain(line + [text[0]], text[1..]);
    }
  }
}
