/** A response that is accepted in one piece and refused when it is cut between a CR and its LF. */
module DecoderExample {
  import opened GenerationStatus
  import opened Protocol
  import opened UnicodeText
  import opened Decoder
  import opened DecoderChunks

  const RESPONSE: seq<Event> :=
    [ResponseStart, BlockStart(1, Conversation), BlockDelta(1, "x"), BlockEnd(1), StateEvent(NoState), ResponseEnd]

  /** One-character lines: "0" to "5" are the six events. */
  function ParseDigit(line: Text): Option<Event> {
    if |line| == 1 && 48 <= line[0] < 54 then Some(RESPONSE[line[0] - 48]) else None
  }

  /** Lines of at most one byte. */
  const CFG := Config(Limits(1, 1, 1), ParseDigit)

  /** The first line ends in CR LF, the others in LF. */
  const BYTES: Bytes := [48, 13, 10, 49, 10, 50, 10, 51, 10, 52, 10, 53, 10]

  lemma {:induction false} AsciiDecodes(bytes: Bytes)
    requires forall i :: 0 <= i < |bytes| ==> bytes[i] < 128
    ensures Decode(Ready, bytes) == (Ready, bytes)
  {
    if bytes != [] {
      AsciiDecodes(bytes[..|bytes| - 1]);
      assert bytes[..|bytes| - 1] + [bytes[|bytes| - 1]] == bytes;
    }
  }

  /** The machine after the first `k` events. */
  function MachineAt(k: nat): Machine
    requires k <= 6
  {
    Machine(k >= 1, k == 6, if k >= 5 then Some(NoState) else None,
            if k == 2 then Some(Active(1, Conversation, [])) else if k == 3 then Some(Active(1, Conversation, ["x"])) else None,
            if k >= 4 then [ContentBlock(Conversation, "x")] else [], if k >= 3 then 1 else 0)
  }

  lemma BlockIsValid()
    ensures ValidBlocks(CFG.lim, [ContentBlock(Conversation, "x")]) && Joined(["x"]) == "x" && !IsBlank("x")
  {
    var blocks := [ContentBlock(Conversation, "x")];
    assert !IsSpace("x"[0]) && blocks[..0] == [] && ["x"][..0] == [] && "" + "x" == "x";
    assert TotalChars([]) == 0 && TotalChars(blocks) == 1;
  }

  lemma EventStep(k: nat)
    requires k < 6
    ensures Step(CFG.lim, MachineAt(k), RESPONSE[k]) == Some(MachineAt(k + 1))
  {
    hide ValidBlocks, IsBlank, Joined;
    BlockIsValid();
    assert [] + ["x"] == ["x"] && [] + [ContentBlock(Conversation, "x")] == [ContentBlock(Conversation, "x")];
  }

  /** Reading line `k`, with or without a CR. */
  lemma LineStep(k: nat, line: Text)
    requires k < 6 && (line == [48 + k] || line == [48 + k, CR])
    ensures Chars(CFG, Reader([], MachineAt(k), RESPONSE[..k]), line + [NEWLINE]) == Reader([], MachineAt(k + 1), RESPONSE[..k + 1])
  {
    hide Chars, MachineAt, ConsumeLine, TextBytes;
    var r := Reader([], MachineAt(k), RESPONSE[..k]);
    NoNewline(CFG, r, line);
    CharsSnoc(CFG, r, line, NEWLINE);
    ConsumeDigit(k);
    assert [] + line == line;
    assert [48 + k, CR][..1] == [48 + k];
    assert StripCr(line) == [48 + k];
    assert RESPONSE[..k + 1] == RESPONSE[..k] + [RESPONSE[k]];
  }

  lemma ConsumeDigit(k: nat)
    requires k < 6
    ensures ConsumeLine(CFG, MachineAt(k), [48 + k]) == Some((MachineAt(k + 1), RESPONSE[k]))
  {
    hide Step, MachineAt;
    EventStep(k);
    NotCompleted(k);
    assert [48 + k][..0] == [] && TextBytes([]) == 0 && TextBytes([48 + k]) == 1;
    assert CFG.parse([48 + k]) == ParseDigit([48 + k]) == Some(RESPONSE[k]);
  }

  lemma NotCompleted(k: nat)
    requires k < 6
    ensures !MachineAt(k).completed
  {
  }

  function Line(k: nat): Text {
    if k == 0 then [48, CR] else [48 + k]
  }

  function Lines(k: nat): Text {
    if k == 0 then [] else Lines(k - 1) + (Line(k - 1) + [NEWLINE])
  }

  lemma {:induction false} LinesRead(k: nat)
    requires k <= 6
    ensures Chars(CFG, Reader([], START, []), Lines(k)) == Reader([], MachineAt(k), RESPONSE[..k])
  {
    if k > 0 {
      hide Chars, MachineAt;
      LinesRead(k - 1);
      LineStep(k - 1, Line(k - 1));
      CharsAppend(CFG, Reader([], START, []), Lines(k - 1), Line(k - 1) + [NEWLINE]);
    } else {
      assert RESPONSE[..0] == [];
    }
  }

  lemma LinesAre()
    ensures Lines(6) == BYTES
  {
    assert Lines(1) == [48, 13, 10];
    assert Lines(2) == [48, 13, 10, 49, 10];
    assert Lines(3) == [48, 13, 10, 49, 10, 50, 10];
    assert Lines(4) == [48, 13, 10, 49, 10, 50, 10, 51, 10];
    assert Lines(5) == [48, 13, 10, 49, 10, 50, 10, 51, 10, 52, 10];
  }

  lemma AcceptedWhole()
    ensures Stream(CFG, FRESH, [BYTES]) == Some((Document([ContentBlock(Conversation, "x")], NoState), RESPONSE))
  {
    hide Chars, Decode, Stream, Lines, ValidBlocks;
    AsciiDecodes(BYTES);
    LinesAre();
    LinesRead(6);
    BlockIsValid();
    assert RESPONSE[..6] == RESPONSE;
    assert Feed(CFG, FRESH, BYTES) == Some((State(Ready, [], MachineAt(6)), RESPONSE));
    StreamOne(BYTES, State(Ready, [], MachineAt(6)), RESPONSE);
  }

  lemma StreamOne(bytes: Bytes, d: State, events: seq<Event>)
    requires Feed(CFG, FRESH, bytes) == Some((d, events)) && Finish(CFG, d).Some?
    ensures Stream(CFG, FRESH, [bytes]) == Some((Finish(CFG, d).value, events))
  {
    hide Feed, Finish;
    assert [bytes][1..] == [] && events + [] == events;
  }

  /** The full line is the first one: one byte, then CR LF. */
  lemma FirstLineIsFull()
    ensures HasFullCrLine(CFG, BYTES)
  {
    hide Decode;
    AsciiDecodes(BYTES);
    var text := BYTES;
    assert text[..1] == [48] && [48][..0] == [];
    assert Unfinished([], []) == [] && Unfinished([], [48]) == [48];
    assert TextBytes([]) == 0 && TextBytes([48]) == 1;
    assert FullLineAt(CFG, text, 1);
  }

  /** Accepted whole, and refused for some way to cut it. */
  lemma CuttingMatters()
    ensures Stream(CFG, FRESH, [BYTES]).Some? && !ChunkIndependent(CFG, BYTES)
    ensures Stream(CFG, FRESH, [BYTES[..2], BYTES[2..]]).None?
  {
    hide Stream, ChunkIndependent, HasFullCrLine;
    AcceptedWhole();
    FirstLineIsFull();
    ChunkingIsInvisible(CFG, BYTES);
    CutIsRefused();
  }

  lemma CutIsRefused()
    ensures Stream(CFG, FRESH, [BYTES[..2], BYTES[2..]]).None?
  {
    hide Decode, Chars, TextBytes;
    var head := BYTES[..2];
    assert head == [48, 13];
    AsciiDecodes(head);
    NoNewline(CFG, Reader([], START, []), head);
    assert [] + head == head;
    HeadIsTooLong();
    assert Feed(CFG, FRESH, head).None?;
  }

  lemma HeadIsTooLong()
    ensures TextBytes([48, 13]) == 2
  {
    assert [48, 13][..1] == [48] && [48][..0] == [];
    assert TextBytes([]) == 0 && TextBytes([48]) == 1;
  }
}
