/**
 What the byte-level decoder (`ProtocolDecoder`, src/oveo/protocol.py) accepts, said without the decoder: the UTF-8
 encoding of lines, each one event, that spell a document of the response grammar. The last line may lack its newline.
 */
module DecoderGrammar {
  import opened GenerationStatus
  import opened Protocol
  import opened Decoder
  import opened DecoderChunks

  // ----- encoding a text -----

  predicate AllScalar(text: Text) {
    forall i :: 0 <= i < |text| ==> IsScalar(text[i])
  }

  function EncodeAll(text: Text): Bytes
    requires AllScalar(text)
  {
    if text == [] then [] else EncodeAll(text[..|text| - 1]) + Encode(text[|text| - 1])
  }

  lemma {:induction false} EncodeAllDecodes(text: Text)
    requires AllScalar(text)
    ensures Decode(Ready, EncodeAll(text)) == (Ready, text)
  {
    if text != [] {
      hide Decode, Encode;
      var before, c := text[..|text| - 1], text[|text| - 1];
      EncodeAllDecodes(before);
      EncodeDecodes(c);
      DecodeAppend(Ready, EncodeAll(before), Encode(c));
      assert before + [c] == text;
    }
  }

  /** The size the limits speak of is the number of encoded bytes. */
  lemma {:induction false} SizeIsEncodedLength(text: Text)
    requires AllScalar(text)
    ensures TextBytes(text) == |EncodeAll(text)|
  {
    if text != [] {
      hide Encode;
      SizeIsEncodedLength(text[..|text| - 1]);
      EncodeDecodes(text[|text| - 1]);
    }
  }

  // ----- decoding is encoding read backwards -----

  lemma Sextet(x: nat, y: nat)
    requires y < 64
    ensures (x * 64 + y) / 64 == x && (x * 64 + y) % 64 == y
  {
  }

  /** The bytes of one unfinished character that leave the machine in `u`. */
  predicate Partial(u: Utf8, tail: Bytes) {
    match u
    case Broken => true
    case Ready => tail == []
    case Need(left, acc, lo, hi) =>
      || (left == 1 && |tail| == 1 && 0xC2 <= tail[0] <= 0xDF && acc == tail[0] - 0xC0 && lo == 0x80 && hi == 0xBF)
      || (left == 2 && |tail| == 1 && Lead3(acc, lo, hi, tail[0]))
      || (left == 3 && |tail| == 1 && Lead4(acc, lo, hi, tail[0]))
      || (left == 1 && |tail| == 2 && lo == 0x80 && hi == 0xBF && Part3(acc, tail))
      || (left == 2 && |tail| == 2 && lo == 0x80 && hi == 0xBF && Part4(acc, tail))
      || (left == 1 && |tail| == 3 && lo == 0x80 && hi == 0xBF && Part4(acc / 64, tail[..2]) && tail[2] == 0x80 + acc % 64)
  }

  predicate Lead3(acc: nat, lo: nat, hi: nat, b: nat) {
    && 0xE0 <= b <= 0xEF && acc == b - 0xE0
    && lo == (if b == 0xE0 then 0xA0 else 0x80) && hi == if b == 0xED then 0x9F else 0xBF
  }

  predicate Lead4(acc: nat, lo: nat, hi: nat, b: nat) {
    && 0xF0 <= b <= 0xF4 && acc == b - 0xF0
    && lo == (if b == 0xF0 then 0x90 else 0x80) && hi == if b == 0xF4 then 0x8F else 0xBF
  }

  /** The first two bytes of a three-byte character: no overlong form and no surrogate. */
  predicate Part3(acc: nat, tail: Bytes)
    requires |tail| == 2
  {
    0x20 <= acc <= 0x3FF && !(0x360 <= acc <= 0x37F) && tail[0] == 0xE0 + acc / 64 && tail[1] == 0x80 + acc % 64
  }

  /** The first two bytes of a four-byte character. */
  predicate Part4(acc: nat, tail: Bytes)
    requires |tail| == 2
  {
    0x10 <= acc <= 0x10F && tail[0] == 0xF0 + acc / 64 && tail[1] == 0x80 + acc % 64
  }

  /** The machine stays inside the character, or completes it with its encoding. */
  predicate Advances(v: Utf8, text: Text, tail: Bytes) {
    if text == [] then Partial(v, tail) else |text| == 1 && v.Ready? && IsScalar(text[0]) && Encode(text[0]) == tail
  }

  lemma FirstByte(b: nat)
    ensures Advances(Utf8Step(Ready, b).0, Utf8Step(Ready, b).1, [b])
  {
  }

  lemma SecondByte(u: Utf8, a: nat, b: nat)
    requires u.Need? && Partial(u, [a]) && 0x80 <= b && u.lo <= b <= u.hi
    ensures Advances(Utf8Step(u, b).0, Utf8Step(u, b).1, [a, b])
  {
    Sextet(u.acc, b - 0x80);
  }

  lemma ThirdByte(u: Utf8, a: nat, b: nat, c: nat)
    requires u.Need? && Partial(u, [a, b]) && 0x80 <= c && u.lo <= c <= u.hi
    ensures Advances(Utf8Step(u, c).0, Utf8Step(u, c).1, [a, b, c])
  {
    Sextet(u.acc, c - 0x80);
    assert [a, b, c][..2] == [a, b];
  }

  lemma FourthByte(u: Utf8, tail: Bytes, d: nat)
    requires u.Need? && Partial(u, tail) && |tail| == 3 && 0x80 <= d && u.lo <= d <= u.hi
    ensures Advances(Utf8Step(u, d).0, Utf8Step(u, d).1, tail + [d])
  {
    hide Part4, Encode;
    LastOfFour(u.acc, tail, d);
  }

  lemma PartialSize(u: Utf8, tail: Bytes)
    requires u.Need? && Partial(u, tail)
    ensures 1 <= |tail| <= 3
  {
  }

  lemma PartialStep(u: Utf8, tail: Bytes, b: nat)
    requires Partial(u, tail)
    ensures Advances(Utf8Step(u, b).0, Utf8Step(u, b).1, tail + [b])
  {
    if u.Broken? {
      StaysBroken(u, b);
    } else if u.Ready? {
      FirstByte(b);
      assert tail + [b] == [b];
    } else if b < 0x80 || !(u.lo <= b <= u.hi) {
      Breaks(u, b);
    } else {
      hide Partial, Advances, Utf8Step;
      PartialSize(u, tail);
      if |tail| == 1 {
        assert tail == [tail[0]] && tail + [b] == [tail[0], b];
        SecondByte(u, tail[0], b);
      } else if |tail| == 2 {
        assert tail == [tail[0], tail[1]] && tail + [b] == [tail[0], tail[1], b];
        ThirdByte(u, tail[0], tail[1], b);
      } else {
        FourthByte(u, tail, b);
      }
    }
  }

  lemma Breaks(u: Utf8, b: nat)
    requires u.Need? && (b < 0x80 || !(u.lo <= b <= u.hi))
    ensures Utf8Step(u, b) == (Broken, [])
  {
  }

  lemma LastOfFour(acc: nat, tail: Bytes, b: nat)
    requires |tail| == 3 && Part4(acc / 64, tail[..2]) && tail[2] == 0x80 + acc % 64 && 0x80 <= b <= 0xBF
    ensures var c := acc * 64 + (b - 0x80); IsScalar(c) && Encode(c) == tail + [b]
  {
    var c := acc * 64 + (b - 0x80);
    Sextet(acc, b - 0x80);
    assert c / 64 == acc && c / 4096 == acc / 64 && c / 262144 == acc / 64 / 64;
    assert tail[..2][0] == tail[0] && tail[..2][1] == tail[1];
    assert tail + [b] == [tail[0], tail[1], tail[2], b];
  }

  /** Decoded bytes are the encoding of the decoded text and the start of one more character. */
  lemma {:induction false} DecodedBytes(bytes: Bytes) returns (tail: Bytes)
    ensures AllScalar(Decode(Ready, bytes).1) && Partial(Decode(Ready, bytes).0, tail)
    ensures !Decode(Ready, bytes).0.Broken? ==> bytes == EncodeAll(Decode(Ready, bytes).1) + tail
  {
    hide Utf8Step, Encode, Partial;
    tail := [];
    if bytes == [] {
      NothingPartial();
    } else {
      var before, b := bytes[..|bytes| - 1], bytes[|bytes| - 1];
      var start := DecodedBytes(before);
      var (u, text) := Decode(Ready, before);
      var (v, more) := Utf8Step(u, b);
      PartialStep(u, start, b);
      StaysBroken(u, b);
      assert bytes == before + [b];
      if more == [] {
        tail := start + [b];
        assert text + more == text;
      } else {
        NothingLeft(v);
        assert (text + more)[..|text + more| - 1] == text;
      }
    }
  }

  lemma NothingPartial()
    ensures Partial(Ready, [])
  {
  }

  lemma NothingLeft(u: Utf8)
    requires u.Ready?
    ensures Partial(u, [])
  {
  }

  lemma StaysBroken(u: Utf8, b: nat)
    ensures u.Broken? ==> Utf8Step(u, b) == (Broken, [])
  {
  }

  /** Bytes decode completely exactly if they encode the decoded text, and no other bytes do. */
  lemma DecodesIffEncodes(bytes: Bytes, text: Text)
    ensures Decode(Ready, bytes) == (Ready, text) <==> AllScalar(text) && bytes == EncodeAll(text)
  {
    hide Decode;
    if Decode(Ready, bytes) == (Ready, text) {
      var tail := DecodedBytes(bytes);
      assert tail == [] && EncodeAll(text) + tail == EncodeAll(text);
    }
    if AllScalar(text) && bytes == EncodeAll(text) {
      EncodeAllDecodes(text);
    }
  }

  // ----- lines -----

  predicate OneLineEach(lines: seq<Text>) {
    forall i :: 0 <= i < |lines| ==> NEWLINE !in lines[i]
  }

  /** Every line with its newline. */
  function Terminated(lines: seq<Text>): Text {
    if lines == [] then [] else Terminated(lines[..|lines| - 1]) + (lines[|lines| - 1] + [NEWLINE])
  }

  /** A line is one event: within the limit and parsed without the CR before its newline. */
  ghost predicate IsEvent(cfg: Config, line: Text, e: Event) {
    var body := if line != [] && line[|line| - 1] == CR then line[..|line| - 1] else line;
    body != [] && TextBytes(body) <= cfg.lim.maxLineBytes && cfg.parse(body) == Some(e)
  }

  ghost predicate AreEvents(cfg: Config, lines: seq<Text>, events: seq<Event>) {
    |lines| == |events| && forall i :: 0 <= i < |lines| ==> IsEvent(cfg, lines[i], events[i])
  }

  lemma ConsumesEvent(cfg: Config, m: Machine, line: Text)
    ensures var r := ConsumeLine(cfg, m, StripCr(line));
            && (r.Some? ==> IsEvent(cfg, line, r.value.1) && Step(cfg.lim, m, r.value.1) == Some(r.value.0))
            && (forall e :: IsEvent(cfg, line, e) && Step(cfg.lim, m, e).Some? ==> r == Some((Step(cfg.lim, m, e).value, e)))
  {
    hide TextBytes;
  }

  function AfterLine(cfg: Config, r: Reader, line: Text): Reader
    requires r.Reader?
  {
    match ConsumeLine(cfg, r.machine, StripCr(line))
    case None => Bad
    case Some((m, e)) => Reader([], m, r.events + [e])
  }

  /** The document once the stream has ended after an unfinished line. */
  function AtEnd(cfg: Config, u: Utf8, rest: Text, r: Reader): Option<(Document, seq<Event>)> {
    if r.Bad? || Finish(cfg, State(u, rest, r.machine)).None? then None
    else Some((Finish(cfg, State(u, rest, r.machine)).value, r.events))
  }

  const FIRST := Reader([], START, [])

  lemma TerminatedSnoc(cfg: Config, lines: seq<Text>)
    requires OneLineEach(lines) && lines != []
    ensures var before, line := lines[..|lines| - 1], lines[|lines| - 1];
            var r := Chars(cfg, FIRST, Terminated(before));
            && (r.Bad? ==> Chars(cfg, FIRST, Terminated(lines)).Bad?)
            && (r.Reader? && r.pending == [] ==> Chars(cfg, FIRST, Terminated(lines)) == AfterLine(cfg, r, line))
  {
    hide Chars, ConsumeLine;
    var before, line := lines[..|lines| - 1], lines[|lines| - 1];
    var r := Chars(cfg, FIRST, Terminated(before));
    CharsAppend(cfg, FIRST, Terminated(before), line + [NEWLINE]);
    FromBad(cfg, line + [NEWLINE]);
    if r.Reader? && r.pending == [] {
      NoNewline(cfg, r, line);
      CharsSnoc(cfg, r, line, NEWLINE);
      assert [] + line == line;
    }
  }

  /** Whole lines are read exactly if they are events that the event machine takes. */
  lemma {:induction false} LinesAreRead(cfg: Config, lines: seq<Text>)
    requires OneLineEach(lines)
    ensures var r := Chars(cfg, FIRST, Terminated(lines));
            r.Reader? ==> r.pending == [] && AreEvents(cfg, lines, r.events) && Steps(cfg.lim, r.events) == Some(r.machine)
    ensures forall events :: AreEvents(cfg, lines, events) && Steps(cfg.lim, events).Some? ==>
              Chars(cfg, FIRST, Terminated(lines)) == Reader([], Steps(cfg.lim, events).value, events)
  {
    hide ConsumeLine, StripCr, Step, IsEvent, Chars;
    var r := Chars(cfg, FIRST, Terminated(lines));
    if lines == [] {
      NoChars(cfg, FIRST);
    } else {
      var before, line := lines[..|lines| - 1], lines[|lines| - 1];
      LinesAreRead(cfg, before);
      TerminatedSnoc(cfg, lines);
      var q := Chars(cfg, FIRST, Terminated(before));
      if q.Reader? {
        ConsumesEvent(cfg, q.machine, line);
        if r.Reader? {
          var e := r.events[|q.events|];
          assert r.events == q.events + [e];
          StepsSnoc(cfg.lim, q.events, e);
          assert forall i :: 0 <= i < |before| ==> lines[i] == before[i];
        }
      }
      forall events | AreEvents(cfg, lines, events) && Steps(cfg.lim, events).Some?
        ensures r == Reader([], Steps(cfg.lim, events).value, events)
      {
        var first, e := events[..|events| - 1], events[|events| - 1];
        assert AreEvents(cfg, before, first) && events == first + [e];
        assert IsEvent(cfg, line, e);
      }
    }
  }

  /** Every text is some whole lines and a rest without a newline. */
  lemma {:induction false} SplitLines(text: Text) returns (lines: seq<Text>, rest: Text)
    ensures OneLineEach(lines) && NEWLINE !in rest && text == Terminated(lines) + rest
  {
    hide Terminated;
    if text == [] {
      lines, rest := [], [];
      NoLines();
    } else {
      var c := text[|text| - 1];
      lines, rest := SplitLines(text[..|text| - 1]);
      assert text == text[..|text| - 1] + [c];
      if c == NEWLINE {
        EndLine(lines, rest);
        lines, rest := lines + [rest], [];
        assert Terminated(lines) + rest == Terminated(lines);
      } else {
        SameLine(Terminated(lines), rest, c);
        rest := rest + [c];
      }
    }
  }

  lemma NoLines()
    ensures Terminated([]) + [] == []
  {
  }

  lemma EndLine(lines: seq<Text>, rest: Text)
    ensures Terminated(lines + [rest]) == Terminated(lines) + rest + [NEWLINE]
  {
    assert (lines + [rest])[..|lines|] == lines;
    SameLine(Terminated(lines), rest, NEWLINE);
  }

  lemma SameLine(a: Text, rest: Text, c: nat)
    ensures a + (rest + [c]) == a + rest + [c]
  {
  }

  // ----- the theorem -----

  /**
   A response as it travels: `lines`, all ended by a newline or all but the last one, encoded as UTF-8. The events of
   all lines make the document; those of the ended lines are handed out while it is read.
   */
  ghost predicate Spells(cfg: Config, bytes: Bytes, lines: seq<Text>, ended: bool, events: seq<Event>) {
    && OneLineEach(lines) && AreEvents(cfg, lines, events)
    && (!ended ==> lines != [] && TextBytes(lines[|lines| - 1]) <= cfg.lim.maxLineBytes)
    && var text := if ended then Terminated(lines) else Terminated(lines[..|lines| - 1]) + lines[|lines| - 1];
    && AllScalar(text) && bytes == EncodeAll(text)
  }

  /** The events handed out by `feed`. */
  function Emitted(events: seq<Event>, ended: bool): seq<Event> {
    if ended || events == [] then events else events[..|events| - 1]
  }

  /** Reading in one piece: the text, then its lines, then the last line. */
  lemma StreamOfText(cfg: Config, bytes: Bytes)
    ensures Stream(cfg, FRESH, [bytes]) ==
            var (u, text) := Decode(Ready, bytes);
            if TextBytes(Unfinished([], text)) > cfg.lim.maxLineBytes then None else Ideal(cfg, FRESH, bytes)
  {
    hide Stream, Ideal, Decode, TextBytes, Unfinished;
    if Stream(cfg, FRESH, [bytes]).Some? {
      AcceptedReads(cfg, bytes);
    }
    if TextBytes(Unfinished([], Decode(Ready, bytes).1)) <= cfg.lim.maxLineBytes {
      WholeChunk(cfg, bytes);
    }
  }

  lemma RestIsUnfinished(lines: seq<Text>, rest: Text)
    requires NEWLINE !in rest
    ensures Unfinished([], Terminated(lines) + rest) == rest
  {
    hide Terminated;
    UnfinishedAppend([], Terminated(lines), rest);
    EndsClean(lines);
    OnlyRest(rest);
  }

  lemma EndsClean(lines: seq<Text>)
    ensures Unfinished([], Terminated(lines)) == []
  {
    if lines != [] {
      var text := Terminated(lines);
      assert text[|text| - 1] == NEWLINE;
    }
  }

  lemma {:induction false} OnlyRest(rest: Text)
    requires NEWLINE !in rest
    ensures Unfinished([], rest) == rest
  {
    if rest != [] {
      OnlyRest(rest[..|rest| - 1]);
    }
  }

  lemma IdealOfText(cfg: Config, bytes: Bytes, lines: seq<Text>, rest: Text)
    requires OneLineEach(lines) && NEWLINE !in rest && Decode(Ready, bytes).1 == Terminated(lines) + rest
    ensures Ideal(cfg, FRESH, bytes) == AtEnd(cfg, Decode(Ready, bytes).0, rest, Chars(cfg, FIRST, Terminated(lines)))
  {
    hide Chars, Decode, Finish, AreEvents;
    CharsAppend(cfg, FIRST, Terminated(lines), rest);
    LinesAreRead(cfg, lines);
    FromBad(cfg, rest);
    var r := Chars(cfg, FIRST, Terminated(lines));
    if r.Reader? {
      NoNewline(cfg, r, rest);
      assert [] + rest == rest;
    }
  }

  lemma FinishIs(cfg: Config, rest: Text, m: Machine)
    ensures rest == [] ==> Finish(cfg, State(Ready, rest, m)) == DocumentOf(cfg.lim, m)
    ensures rest != [] ==>
              Finish(cfg, State(Ready, rest, m)) ==
              var c := ConsumeLine(cfg, m, StripCr(rest)); if c.None? then None else DocumentOf(cfg.lim, c.value.0)
  {
    hide ConsumeLine, DocumentOf;
  }

  /** Lines and a last, unfinished one. */
  lemma EventsSnoc(cfg: Config, lines: seq<Text>, rest: Text, events: seq<Event>, e: Event)
    requires AreEvents(cfg, lines, events) && IsEvent(cfg, rest, e)
    ensures AreEvents(cfg, lines + [rest], events + [e])
  {
    hide IsEvent;
  }

  /** An accepted stream spells its document. */
  lemma AcceptedSpells(cfg: Config, bytes: Bytes) returns (lines: seq<Text>, ended: bool, events: seq<Event>)
    requires Stream(cfg, FRESH, [bytes]).Some?
    ensures Spells(cfg, bytes, lines, ended, events)
    ensures Stream(cfg, FRESH, [bytes]) == Made(Accept(cfg.lim, events), Emitted(events, ended))
  {
    hide Stream, Ideal, Decode, TextBytes, Unfinished, Terminated, Chars, AtEnd, Spells, Accept, Emitted, AllScalar, OneLineEach;
    var (u, text) := Decode(Ready, bytes);
    StreamOfText(cfg, bytes);
    var rest;
    lines, rest := SplitLines(text);
    IdealOfText(cfg, bytes, lines, rest);
    RestIsUnfinished(lines, rest);
    var r := Chars(cfg, FIRST, Terminated(lines));
    EndedReady(cfg, u, rest, r);
    DecodesIffEncodes(bytes, text);
    events := AcceptedEvents(cfg, lines, rest);
    ended := rest == [];
    AcceptedText(cfg, bytes, lines, rest, events);
    if !ended {
      lines := lines + [rest];
    }
  }

  function Made(doc: Option<Document>, out: seq<Event>): Option<(Document, seq<Event>)> {
    if doc.None? then None else Some((doc.value, out))
  }

  lemma AcceptedText(cfg: Config, bytes: Bytes, lines: seq<Text>, rest: Text, events: seq<Event>)
    requires OneLineEach(lines) && NEWLINE !in rest && TextBytes(rest) <= cfg.lim.maxLineBytes
    requires AreEvents(cfg, if rest == [] then lines else lines + [rest], events)
    requires AllScalar(Terminated(lines) + rest) && bytes == EncodeAll(Terminated(lines) + rest)
    ensures Spells(cfg, bytes, if rest == [] then lines else lines + [rest], rest == [], events)
  {
    hide AreEvents, TextBytes, Terminated, AllScalar;
    if rest == [] {
      assert Terminated(lines) + rest == Terminated(lines);
    } else {
      assert (lines + [rest])[..|lines|] == lines;
    }
  }

  /** The events of the whole lines and of a last, unfinished one. */
  lemma AcceptedEvents(cfg: Config, lines: seq<Text>, rest: Text) returns (events: seq<Event>)
    requires OneLineEach(lines) && AtEnd(cfg, Ready, rest, Chars(cfg, FIRST, Terminated(lines))).Some?
    ensures AreEvents(cfg, if rest == [] then lines else lines + [rest], events)
    ensures AtEnd(cfg, Ready, rest, Chars(cfg, FIRST, Terminated(lines))) == Made(Accept(cfg.lim, events), Emitted(events, rest == []))
  {
    hide Terminated, Chars, Finish, ConsumeLine, Step, DocumentOf, AreEvents, IsEvent, Steps, OneLineEach;
    LinesAreRead(cfg, lines);
    var r := Chars(cfg, FIRST, Terminated(lines));
    FinishIs(cfg, rest, r.machine);
    events := r.events;
    if rest != [] {
      ConsumesEvent(cfg, r.machine, rest);
      var e := ConsumeLine(cfg, r.machine, StripCr(rest)).value.1;
      EventsSnoc(cfg, lines, rest, r.events, e);
      StepsSnoc(cfg.lim, r.events, e);
      events := r.events + [e];
      assert events[..|events| - 1] == r.events;
    }
  }

  lemma EndedReady(cfg: Config, u: Utf8, rest: Text, r: Reader)
    ensures AtEnd(cfg, u, rest, r).Some? ==> u.Ready? && r.Reader?
  {
  }

  lemma EventsInit(cfg: Config, lines: seq<Text>, events: seq<Event>)
    requires AreEvents(cfg, lines, events) && lines != []
    ensures |events| == |lines|
    ensures AreEvents(cfg, lines[..|lines| - 1], events[..|events| - 1]) && IsEvent(cfg, lines[|lines| - 1], events[|events| - 1])
    ensures lines[|lines| - 1] != []
  {
  }

  lemma StepsInit(lim: Limits, events: seq<Event>)
    requires events != [] && Steps(lim, events).Some?
    ensures Steps(lim, events[..|events| - 1]).Some?
    ensures Steps(lim, events) == Step(lim, Steps(lim, events[..|events| - 1]).value, events[|events| - 1])
  {
  }

  /** Bytes that spell a document are accepted with it. */
  lemma SpelledIsAccepted(cfg: Config, bytes: Bytes, lines: seq<Text>, ended: bool, events: seq<Event>, doc: Document)
    requires Spells(cfg, bytes, lines, ended, events) && Accept(cfg.lim, events) == Some(doc)
    ensures Stream(cfg, FRESH, [bytes]) == Some((doc, Emitted(events, ended)))
  {
    hide Stream, Ideal, Decode, TextBytes, Unfinished, Terminated, Chars, Finish, ConsumeLine, Step, DocumentOf, AreEvents, IsEvent, AllScalar,
         Steps;
    var whole, rest := lines, [];
    var read := events;
    if ended {
      assert Terminated(whole) + rest == Terminated(lines);
    } else {
      EventsInit(cfg, lines, events);
      whole, rest, read := lines[..|lines| - 1], lines[|lines| - 1], events[..|events| - 1];
      StepsInit(cfg.lim, events);
    }
    var text := Terminated(whole) + rest;
    DecodesIffEncodes(bytes, text);
    StreamOfText(cfg, bytes);
    IdealOfText(cfg, bytes, whole, rest);
    RestIsUnfinished(whole, rest);
    NoBytes();
    LinesAreRead(cfg, whole);
    var r := Chars(cfg, FIRST, Terminated(whole));
    assert r == Reader([], Steps(cfg.lim, read).value, read);
    FinishIs(cfg, rest, r.machine);
    ConsumesEvent(cfg, r.machine, rest);
  }

  ghost predicate SpellsDocument(cfg: Config, bytes: Bytes, doc: Document, out: seq<Event>) {
    exists lines, ended, events ::
      Spells(cfg, bytes, lines, ended, events) && Accept(cfg.lim, events) == Some(doc) && out == Emitted(events, ended)
  }

  /**
   In one piece the decoder accepts exactly the bytes that spell a document: complete UTF-8 of lines within the limit,
   the last one with or without its newline, whose events are a response of the grammar.
   */
  lemma AcceptsExactlySpelledDocuments(cfg: Config, bytes: Bytes, doc: Document, out: seq<Event>)
    ensures Stream(cfg, FRESH, [bytes]) == Some((doc, out)) <==> SpellsDocument(cfg, bytes, doc, out)
  {
    hide Stream, Spells, Accept, Emitted;
    if Stream(cfg, FRESH, [bytes]) == Some((doc, out)) {
      var lines, ended, events := AcceptedSpells(cfg, bytes);
    }
    if SpellsDocument(cfg, bytes, doc, out) {
      var lines, ended, events :| Spells(cfg, bytes, lines, ended, events) && Accept(cfg.lim, events) == Some(doc) && out == Emitted(events, ended);
      SpelledIsAccepted(cfg, bytes, lines, ended, events, doc);
    }
  }

  /** Cut in any way, only bytes that spell a document are accepted; bytes that are no UTF-8 never are. */
  lemma AnyCutSpells(cfg: Config, chunks: seq<Bytes>)
    ensures Stream(cfg, FRESH, chunks).Some? ==>
              && SpellsDocument(cfg, Flatten(chunks), Stream(cfg, FRESH, chunks).value.0, Stream(cfg, FRESH, chunks).value.1)
              && exists text :: AllScalar(text) && Flatten(chunks) == EncodeAll(text)
  {
    hide Stream, Ideal, TextBytes, Unfinished, Decode, Accept, IsEvent, Terminated, AllScalar;
    if Stream(cfg, FRESH, chunks).Some? {
      var bytes := Flatten(chunks);
      NoBytes();
      SuccessIsIdeal(cfg, FRESH, chunks);
      WholeChunk(cfg, bytes);
      var (doc, out) := Stream(cfg, FRESH, chunks).value;
      AcceptsExactlySpelledDocuments(cfg, bytes, doc, out);
    }
  }
}
