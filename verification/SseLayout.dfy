/** What the lines of an event stream are, said by the layout of the text instead of a reader (src/oveo/provider.py). */
module SseLayout {
  import opened Sse

  // ----- lines and line ends -----

  /** Lines without breaks, each with its line end; a lone CR is not followed by an LF. */
  predicate LaidOut(lines: seq<string>, ends: seq<string>) {
    && |ends| == |lines|
    && (forall i :: 0 <= i < |lines| ==> '\r' !in lines[i] && '\n' !in lines[i] && IsTerminator(ends[i]))
    && (forall i :: 0 < i < |lines| && ends[i - 1] == "\r" && lines[i] == "" ==> ends[i] == "\r" || ends[i] == "\r\n")
  }

  function Text(lines: seq<string>, ends: seq<string>): string
    requires |ends| == |lines|
  {
    if lines == [] then ""
    else
      var n := |lines| - 1;
      Text(lines[..n], ends[..n]) + (lines[n] + ends[n])
  }

  lemma EndReads(lines: seq<string>, line: string, afterCr: bool, end: string)
    requires IsTerminator(end) && (afterCr ==> end[0] == '\r')
    ensures Read(Reader(lines, line, afterCr), end) == Reader(lines + [line], "", end == "\r")
  {
    var r := Reader(lines, line, afterCr);
    if |end| == 1 {
      assert end == [end[0]];
      ReadOne(r, end[0]);
    } else {
      assert "\r\n" == "\r" + "\n" && "\r" == ['\r'] && "\n" == ['\n'];
      ReadAppend(r, "\r", "\n");
      ReadOne(r, '\r');
      ReadOne(Step(r, '\r'), '\n');
    }
  }

  lemma LineReads(lines: seq<string>, afterCr: bool, line: string, end: string)
    requires NoBreak(line) && IsTerminator(end) && (afterCr && line == "" ==> end[0] == '\r')
    ensures Read(Reader(lines, "", afterCr), line + end) == Reader(lines + [line], "", end == "\r")
  {
    hide Read;
    ReadAppend(Reader(lines, "", afterCr), line, end);
    ReadPlain(lines, afterCr, line);
    EndReads(lines, line, line == "" && afterCr, end);
  }

  lemma {:induction false} LayoutReads(lines: seq<string>, ends: seq<string>)
    requires LaidOut(lines, ends)
    ensures Read(START, Text(lines, ends)) == Reader(lines, "", lines != [] && ends[|ends| - 1] == "\r")
  {
    hide Read;
    if lines == [] {
      NothingRead();
    } else {
      var n := |lines| - 1;
      LayoutReads(lines[..n], ends[..n]);
      ReadAppend(START, Text(lines[..n], ends[..n]), lines[n] + ends[n]);
      LineReads(lines[..n], n > 0 && ends[n - 1] == "\r", lines[n], ends[n]);
      assert lines[..n] + [lines[n]] == lines;
    }
  }

  lemma NothingRead()
    ensures Read(START, "") == START
  {
  }

  /** The terminated lines are the lines between the line ends, whichever of the three each of them is. */
  lemma LinesBetweenEnds(lines: seq<string>, ends: seq<string>, rest: string)
    requires LaidOut(lines, ends) && '\r' !in rest && '\n' !in rest
    ensures TerminatedLines(Text(lines, ends) + rest) == lines
  {
    hide Read;
    LayoutReads(lines, ends);
    ReadAppend(START, Text(lines, ends), rest);
    ReadPlain(lines, lines != [] && ends[|ends| - 1] == "\r", rest);
  }
}
