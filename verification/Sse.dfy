/** Splitting a server-sent event stream into lines (`_sse_lines`, src/oveo/provider.py). */
module Sse {
  // ----- the format: section 9.2.5, "Parsing an event stream", of the WHATWG HTML Standard -----

  /** The lines ended so far, the current line, and whether the last character was a CR. */
  datatype Reader = Reader(lines: seq<string>, line: string, afterCr: bool)

  const START := Reader([], "", false)

  function Step(r: Reader, c: char): Reader {
    if c == '\n' && r.afterCr then r.(afterCr := false)
    else if c == '\n' || c == '\r' then Reader(r.lines + [r.line], "", c == '\r')
    else Reader(r.lines, r.line + [c], false)
  }

  /** Character by character: CR, LF and CRLF each end one line. */
  function Read(r: Reader, text: string): Reader {
    if text == "" then r else Step(Read(r, text[..|text| - 1]), text[|text| - 1])
  }

  /** The terminated lines of a text; what follows the last terminator is discarded. */
  function TerminatedLines(text: string): seq<string> {
    Read(START, text).lines
  }

  // ----- the code -----

  predicate IsBreak(c: char) {
    c == '\r' || c == '\n'
  }

  predicate NoBreak(text: string) {
    forall i :: 0 <= i < |text| ==> !IsBreak(text[i])
  }

  function FirstBreak(text: string): (i: nat)
    ensures i <= |text| && (i < |text| ==> IsBreak(text[i]))
    ensures forall k :: 0 <= k < i ==> !IsBreak(text[k])
  {
    if text == "" || IsBreak(text[0]) then 0 else 1 + FirstBreak(text[1..])
  }

  /** Where the text after the break at `i` starts: CRLF is one break. */
  function AfterBreak(text: string, i: nat): (n: nat)
    requires i < |text|
    ensures i < n <= |text|
  {
    if text[i] == '\r' && i + 1 < |text| && text[i + 1] == '\n' then i + 2 else i + 1
  }

  /** `re.split(r"\r\n|\r|\n", text)` */
  function Split(text: string): (pieces: seq<string>)
    ensures pieces != []
    decreases |text|
  {
    var i := FirstBreak(text);
    if i == |text| then [text] else [text[..i]] + Split(text[AfterBreak(text, i)..])
  }

  function Concat(chunks: seq<string>): string {
    if chunks == [] then "" else Concat(chunks[..|chunks| - 1]) + chunks[|chunks| - 1]
  }

  predicate EndsWithCr(text: string) {
    text != "" && text[|text| - 1] == '\r'
  }

  /** However a text is cut into chunks, the lines yielded are its terminated lines. */
  method SseLines(chunks: seq<string>) returns (yielded: seq<string>)
    ensures yielded == TerminatedLines(Concat(chunks))
  {
    hide Read, Split;
    yielded := [];
    var tail := "";
    for k := 0 to |chunks|
      invariant Read(START, Concat(chunks[..k])) == Read(Reader(yielded, "", false), tail)
      invariant tail == "" || !IsBreak(tail[|tail| - 1]) || EndsWithCr(tail)
      invariant forall i :: 0 <= i < |tail| - 1 ==> !IsBreak(tail[i])
    {
      assert chunks[..k + 1][..k] == chunks[..k];
      ReadAppend(START, Concat(chunks[..k]), chunks[k]);
      ReadAppend(Reader(yielded, "", false), tail, chunks[k]);
      if chunks[k] == "" {
        assert tail + chunks[k] == tail;
        continue;
      }
      var text := tail + chunks[k];
      var held := if EndsWithCr(text) then "\r" else "";
      var body := text[..|text| - |held|];
      assert text == body + held;
      var lines := Split(body);
      SplitReads(yielded, body);
      HeldReads(yielded, lines, body, held);
      tail := lines[|lines| - 1] + held;
      yielded := yielded + lines[..|lines| - 1];
    }
    assert chunks[..|chunks|] == chunks;
    TailReads(yielded, tail);
    if EndsWithCr(tail) {
      yielded := yielded + [tail[..|tail| - 1]];
    }
  }

  lemma {:induction false} ReadAppend(r: Reader, a: string, b: string)
    ensures Read(r, a + b) == Read(Read(r, a), b)
  {
    if b == "" {
      assert a + b == a;
    } else {
      var n := |b| - 1;
      assert (a + b)[..|a + b| - 1] == a + b[..n];
      ReadAppend(r, a, b[..n]);
    }
  }

  lemma {:induction false} ReadPlain(lines: seq<string>, afterCr: bool, text: string)
    requires NoBreak(text)
    ensures Read(Reader(lines, "", afterCr), text) == Reader(lines, text, text == "" && afterCr)
  {
    hide Read;
    var r := Reader(lines, "", afterCr);
    ReadLast(r, text);
    if text != "" {
      ReadPlain(lines, afterCr, text[..|text| - 1]);
      assert text[..|text| - 1] + [text[|text| - 1]] == text;
    }
  }

  lemma ReadLast(r: Reader, text: string)
    ensures Read(r, text) == if text == "" then r else Step(Read(r, text[..|text| - 1]), text[|text| - 1])
  {
  }

  lemma ReadOne(r: Reader, c: char)
    ensures Read(r, [c]) == Step(r, c)
  {
    assert [c][..0] == "";
    assert Read(r, "") == r;
  }

  /** A pending CR matters only if the next character is an LF. */
  lemma PendingCr(lines: seq<string>, text: string)
    requires text != "" && text[0] != '\n'
    ensures Read(Reader(lines, "", true), text) == Read(Reader(lines, "", false), text)
  {
    hide Read;
    assert text == [text[0]] + text[1..];
    ReadAppend(Reader(lines, "", true), [text[0]], text[1..]);
    ReadAppend(Reader(lines, "", false), [text[0]], text[1..]);
    ReadOne(Reader(lines, "", true), text[0]);
    ReadOne(Reader(lines, "", false), text[0]);
  }

  /** Reading a line and its terminator. */
  lemma ReadTerminated(lines: seq<string>, line: string, end: string)
    requires NoBreak(line) && IsTerminator(end)
    ensures Read(Reader(lines, "", false), line + end) == Reader(lines + [line], "", end == "\r")
  {
    hide Read;
    ReadAppend(Reader(lines, "", false), line, end);
    ReadPlain(lines, false, line);
    ReadOne(Reader(lines, line, false), end[0]);
    if |end| == 2 {
      assert end == [end[0]] + ['\n'];
      ReadAppend(Reader(lines, line, false), [end[0]], ['\n']);
      ReadOne(Reader(lines + [line], "", true), '\n');
    } else {
      assert end == [end[0]];
    }
  }

  predicate IsTerminator(end: string) {
    end == "\n" || end == "\r" || end == "\r\n"
  }

  /** The text up to its first break, the break, and the rest. */
  lemma AtBreak(text: string)
    requires FirstBreak(text) < |text|
    ensures var i := FirstBreak(text); var n := AfterBreak(text, i);
            && text == text[..i] + text[i..n] + text[n..] && NoBreak(text[..i]) && IsTerminator(text[i..n])
            && (text[i..n] == "\r" <==> text[i] == '\r' && n == i + 1)
  {
    hide FirstBreak, AfterBreak, IsTerminator;
    var i := FirstBreak(text);
    ThreeParts(text, i, AfterBreak(text, i));
    Terminator(text, i);
  }

  lemma ThreeParts(text: string, i: nat, n: nat)
    requires i <= n <= |text|
    ensures text == text[..i] + text[i..n] + text[n..]
  {
  }

  lemma Terminator(text: string, i: nat)
    requires i < |text| && IsBreak(text[i])
    ensures var end := text[i..AfterBreak(text, i)];
            IsTerminator(end) && (end == "\r" <==> text[i] == '\r' && AfterBreak(text, i) == i + 1)
  {
    var end := text[i..AfterBreak(text, i)];
    if AfterBreak(text, i) == i + 2 {
      assert end == ['\r', '\n'];
    } else {
      assert end == [text[i]];
    }
  }

  lemma ReadLine(lines: seq<string>, text: string)
    requires FirstBreak(text) < |text|
    ensures var i := FirstBreak(text); var n := AfterBreak(text, i);
            Read(Reader(lines, "", false), text)
            == Read(Reader(lines + [text[..i]], "", text[i] == '\r' && n == i + 1), text[n..])
  {
    hide Read, FirstBreak, AfterBreak, NoBreak;
    var i := FirstBreak(text);
    var n := AfterBreak(text, i);
    AtBreak(text);
    ReadTerminated(lines, text[..i], text[i..n]);
    ReadAppend(Reader(lines, "", false), text[..i] + text[i..n], text[n..]);
  }

  lemma {:induction false} SplitReads(lines: seq<string>, text: string)
    ensures var pieces := Split(text);
            Read(Reader(lines, "", false), text)
            == Reader(lines + pieces[..|pieces| - 1], pieces[|pieces| - 1], EndsWithCr(text))
    ensures NoBreak(Split(text)[|Split(text)| - 1])
    decreases |text|
  {
    hide Read, FirstBreak, AfterBreak, NoBreak;
    var i := FirstBreak(text);
    if i == |text| {
      NoBreakLeft(text);
      ReadPlain(lines, false, text);
      assert lines + [text][..0] == lines;
    } else {
      var n := AfterBreak(text, i);
      var rest := Split(text[n..]);
      ReadLine(lines, text);
      AtBreak(text);
      SplitReads(lines + [text[..i]], text[n..]);
      FirstPiece(lines, text[..i], rest);
      if text[n..] == "" {
        NothingLeft(lines + [text[..i]], text[i] == '\r' && n == i + 1);
        LastCharacter(text, i, n);
      } else {
        assert text[n..][|text[n..]| - 1] == text[|text| - 1];
        if text[i] == '\r' && n == i + 1 {
          NoLfAfter(text, i);
          PendingCr(lines + [text[..i]], text[n..]);
        }
      }
    }
  }

  lemma NoBreakLeft(text: string)
    requires FirstBreak(text) == |text|
    ensures NoBreak(text) && !EndsWithCr(text)
  {
  }

  lemma FirstPiece(lines: seq<string>, first: string, rest: seq<string>)
    requires rest != []
    ensures var all := [first] + rest;
            lines + [first] + rest[..|rest| - 1] == lines + all[..|all| - 1] && all[|all| - 1] == rest[|rest| - 1]
  {
  }

  lemma LastCharacter(text: string, i: nat, n: nat)
    requires i < |text| && n == AfterBreak(text, i) == |text|
    ensures EndsWithCr(text) <==> text[i] == '\r' && n == i + 1
  {
  }

  lemma NoLfAfter(text: string, i: nat)
    requires i < |text| && AfterBreak(text, i) == i + 1 && text[i] == '\r'
    ensures i + 1 < |text| ==> text[i + 1] != '\n'
  {
  }

  lemma NothingLeft(lines: seq<string>, afterCr: bool)
    ensures Read(Reader(lines, "", afterCr), "") == Reader(lines, "", afterCr) && Split("") == [""]
  {
  }

  /** Putting a held CR back after the last piece reads the same. */
  lemma HeldReads(lines: seq<string>, pieces: seq<string>, body: string, held: string)
    requires pieces == Split(body) && (held == "\r" || (held == "" && !EndsWithCr(body)))
    ensures Read(Reader(lines, "", false), body + held)
         == Read(Reader(lines + pieces[..|pieces| - 1], "", false), pieces[|pieces| - 1] + held)
  {
    hide Read, Split;
    var before, last := lines + pieces[..|pieces| - 1], pieces[|pieces| - 1];
    SplitReads(lines, body);
    ReadAppend(Reader(lines, "", false), body, held);
    ReadPlain(before, false, last);
    ReadAppend(Reader(before, "", false), last, held);
    if held == "\r" {
      ReadOne(Reader(before, last, false), '\r');
      ReadOne(Reader(before, last, true), '\r');
    }
  }

  lemma TailReads(lines: seq<string>, tail: string)
    requires tail == "" || !IsBreak(tail[|tail| - 1]) || EndsWithCr(tail)
    requires forall i :: 0 <= i < |tail| - 1 ==> !IsBreak(tail[i])
    ensures Read(Reader(lines, "", false), tail).lines == if EndsWithCr(tail) then lines + [tail[..|tail| - 1]] else lines
  {
    if EndsWithCr(tail) {
      ReadPlain(lines, false, tail[..|tail| - 1]);
    } else {
      ReadPlain(lines, false, tail);
    }
  }
}
