/**
 The response protocol (src/oveo/protocol.py): the event machine of `ProtocolDecoder._consume_line`, the
 grammar it accepts, and the document it yields. A line is taken as the event its JSON denotes.
 */
module Protocol {
  import opened GenerationStatus
  import opened UnicodeText

  datatype BlockKind = Conversation | Deliverable | Advice

  datatype ContentBlock = ContentBlock(kind: BlockKind, text: string)

  // ----- state operations -----

  datatype BlockText = BlockText(id: string, text: string)

  datatype Separator = NoSeparator | Space | Line | Paragraph

  /** One exact replacement; `source` is set when it also replaces source text. */
  datatype Exact = Exact(source: Option<(string, string)>, outputAnchor: string, outputReplacement: string)

  datatype StateOperation =
    | NoState
    | Establish(source: Option<string>, brief: string, docxBlocks: Option<seq<BlockText>>)
    | Append(baseVersion: nat, sourceAddition: string, sourceSeparator: Separator, outputSeparator: Separator,
             outputAddition: Option<string>, newBrief: Option<string>)
    | Replace(baseVersion: nat, replacements: seq<Exact>, newBrief: Option<string>, docxBlocks: Option<seq<BlockText>>)
    | Full(baseVersion: nat, source: Option<string>, newBrief: Option<string>, docxBlocks: Option<seq<BlockText>>)

  datatype Document = Document(blocks: seq<ContentBlock>, state: StateOperation)

  datatype Event =
    | ResponseStart
    | BlockStart(id: nat, kind: BlockKind)     // id N stands for "bN"
    | BlockDelta(id: nat, text: string)
    | BlockEnd(id: nat)
    | StateEvent(state: StateOperation)
    | ResponseEnd

  datatype Limits = Limits(maxLineBytes: nat, maxBlocks: nat, maxTextChars: nat)

  // ----- text -----

  /** `not text.strip()` */
  predicate IsBlank(s: string) {
    forall i :: 0 <= i < |s| ==> IsSpace(s[i])
  }

  function Joined(parts: seq<string>): string {
    if parts == [] then "" else Joined(parts[..|parts| - 1]) + parts[|parts| - 1]
  }

  lemma JoinedSnoc(parts: seq<string>, s: string)
    ensures Joined(parts + [s]) == Joined(parts) + s
  {
    assert (parts + [s])[..|parts + [s]| - 1] == parts;
  }

  function TotalChars(blocks: seq<ContentBlock>): nat {
    if blocks == [] then 0 else TotalChars(blocks[..|blocks| - 1]) + |blocks[|blocks| - 1].text|
  }

  // ----- block validation -----

  /** One conversation block, or deliverables followed by at most one advice block. */
  predicate GoodOrder(blocks: seq<ContentBlock>) {
    || (|blocks| == 1 && blocks[0].kind.Conversation?)
    || (&& |blocks| >= 1 && blocks[0].kind.Deliverable?
        && forall i :: 0 <= i < |blocks| ==>
             blocks[i].kind.Deliverable? || (blocks[i].kind.Advice? && i == |blocks| - 1))
  }

  predicate ValidBlocks(lim: Limits, blocks: seq<ContentBlock>) {
    && 1 <= |blocks| <= lim.maxBlocks
    && (forall i :: 0 <= i < |blocks| ==> !IsBlank(blocks[i].text))
    && TotalChars(blocks) <= lim.maxTextChars
    && GoodOrder(blocks)
  }

  lemma {:induction false} TotalCharsGrows(blocks: seq<ContentBlock>, i: nat)
    requires i <= |blocks|
    ensures TotalChars(blocks[..i]) <= TotalChars(blocks)
  {
    if i < |blocks| {
      TotalCharsGrows(blocks[..|blocks| - 1], i);
      assert blocks[..|blocks| - 1][..i] == blocks[..i];
    } else {
      assert blocks[..i] == blocks;
    }
  }

  /** The two loops of `validate_content_blocks`. */
  method ValidateContentBlocks(lim: Limits, blocks: seq<ContentBlock>) returns (ok: bool)
    ensures ok == ValidBlocks(lim, blocks)
  {
    hide IsBlank;
    if |blocks| == 0 || |blocks| > lim.maxBlocks {
      return false;
    }
    var total := 0;
    for i := 0 to |blocks|
      invariant total == TotalChars(blocks[..i]) <= lim.maxTextChars
      invariant forall k :: 0 <= k < i ==> !IsBlank(blocks[k].text)
    {
      if IsBlank(blocks[i].text) {
        return false;
      }
      assert blocks[..i + 1][..i] == blocks[..i];
      TotalCharsGrows(blocks, i + 1);
      total := total + |blocks[i].text|;
      if total > lim.maxTextChars {
        return false;
      }
    }
    assert blocks[..|blocks|] == blocks;
    if |blocks| == 1 && blocks[0].kind.Conversation? {
      return true;
    }
    if !blocks[0].kind.Deliverable? {
      return false;
    }
    var adviceSeen := false;
    for i := 0 to |blocks|
      invariant forall k :: 0 <= k < i ==> blocks[k].kind.Deliverable? || (blocks[k].kind.Advice? && k == i - 1)
      invariant adviceSeen <==> i > 0 && blocks[i - 1].kind.Advice?
    {
      if blocks[i].kind.Conversation? {
        return false;
      }
      if blocks[i].kind.Advice? {
        if adviceSeen {
          return false;
        }
        adviceSeen := true;
      } else if adviceSeen {
        return false;
      }
    }
    return true;
  }

  // ----- the event machine -----

  datatype Active = Active(id: nat, kind: BlockKind, parts: seq<string>)

  datatype Machine = Machine(
    started: bool, completed: bool, state: Option<StateOperation>,
    active: Option<Active>, blocks: seq<ContentBlock>, totalChars: nat)

  const START := Machine(false, false, None, None, [], 0)

  /** `_consume_line` after parsing; None is any protocol error. */
  function Step(lim: Limits, p: Machine, e: Event): Option<Machine> {
    if p.completed then None
    else if p.state.Some? && !e.ResponseEnd? then None
    else if e.ResponseStart? then if p.started then None else Some(p.(started := true))
    else if !p.started then None
    else match e
      case BlockStart(id, kind) =>
        if p.active.Some? || |p.blocks| >= lim.maxBlocks || id != |p.blocks| + 1 then None
        else Some(p.(active := Some(Active(id, kind, []))))
      case BlockDelta(id, text) =>
        if p.active.None? || id != p.active.value.id || text == "" || p.totalChars + |text| > lim.maxTextChars then None
        else Some(p.(totalChars := p.totalChars + |text|, active := Some(p.active.value.(parts := p.active.value.parts + [text]))))
      case BlockEnd(id) =>
        if p.active.None? || id != p.active.value.id || p.active.value.parts == [] || IsBlank(Joined(p.active.value.parts)) then None
        else Some(p.(active := None, blocks := p.blocks + [ContentBlock(p.active.value.kind, Joined(p.active.value.parts))]))
      case StateEvent(state) =>
        if p.active.Some? || !ValidBlocks(lim, p.blocks) then None
        else if p.blocks[0].kind.Conversation? && !state.NoState? then None
        else Some(p.(state := Some(state)))
      case ResponseEnd =>
        if p.active.Some? || p.state.None? || !ValidBlocks(lim, p.blocks) then None
        else Some(p.(completed := true))
      case ResponseStart => None
  }

  function Steps(lim: Limits, events: seq<Event>): Option<Machine> {
    if events == [] then Some(START)
    else match Steps(lim, events[..|events| - 1])
      case None => None
      case Some(p) => Step(lim, p, events[|events| - 1])
  }

  /** `finish`, once the stream is read. */
  function DocumentOf(lim: Limits, p: Machine): Option<Document> {
    if !p.completed || p.state.None? || !ValidBlocks(lim, p.blocks) then None
    else Some(Document(p.blocks, p.state.value))
  }

  function Accept(lim: Limits, events: seq<Event>): Option<Document> {
    match Steps(lim, events)
    case None => None
    case Some(p) => DocumentOf(lim, p)
  }

  // ----- the grammar -----

  /** A block as it was sent: its kind and its deltas. */
  datatype Part = Part(kind: BlockKind, deltas: seq<string>)

  function Deltas(id: nat, deltas: seq<string>): seq<Event> {
    seq(|deltas|, i requires 0 <= i < |deltas| => BlockDelta(id, deltas[i]))
  }

  function PartEvents(id: nat, part: Part): seq<Event> {
    [BlockStart(id, part.kind)] + Deltas(id, part.deltas) + [BlockEnd(id)]
  }

  function PartsEvents(parts: seq<Part>): seq<Event> {
    if parts == [] then [] else PartsEvents(parts[..|parts| - 1]) + PartEvents(|parts|, parts[|parts| - 1])
  }

  function ResponseEvents(parts: seq<Part>, state: StateOperation): seq<Event> {
    [ResponseStart] + PartsEvents(parts) + [StateEvent(state), ResponseEnd]
  }

  function BlocksOf(parts: seq<Part>): (blocks: seq<ContentBlock>)
    ensures |blocks| == |parts|
  {
    seq(|parts|, i requires 0 <= i < |parts| => ContentBlock(parts[i].kind, Joined(parts[i].deltas)))
  }

  predicate GoodPart(part: Part) {
    && part.deltas != [] && (forall i :: 0 <= i < |part.deltas| ==> part.deltas[i] != "")
    && !IsBlank(Joined(part.deltas))
  }

  /** The responses the protocol describes. */
  predicate Grammatical(lim: Limits, parts: seq<Part>, state: StateOperation) {
    && (forall i :: 0 <= i < |parts| ==> GoodPart(parts[i]))
    && ValidBlocks(lim, BlocksOf(parts))
    && (BlocksOf(parts)[0].kind.Conversation? ==> state.NoState?)
  }

  // ----- what an accepted prefix looks like -----

  /** The parts a sequence of events has sent, and the one still open. */
  datatype Sent = Sent(parts: seq<Part>, open: Option<Part>)

  function Add(c: Sent, e: Event): Sent {
    match e
    case BlockStart(_, kind) => c.(open := Some(Part(kind, [])))
    case BlockDelta(_, text) => if c.open.None? then c else c.(open := Some(c.open.value.(deltas := c.open.value.deltas + [text])))
    case BlockEnd(_) => if c.open.None? then c else Sent(c.parts + [c.open.value], None)
    case _ => c
  }

  function Collect(events: seq<Event>): Sent {
    if events == [] then Sent([], None) else Add(Collect(events[..|events| - 1]), events[|events| - 1])
  }

  function OpenEvents(id: nat, open: Option<Part>): seq<Event> {
    if open.None? then [] else [BlockStart(id, open.value.kind)] + Deltas(id, open.value.deltas)
  }

  function OpenChars(open: Option<Part>): nat {
    if open.None? then 0 else |Joined(open.value.deltas)|
  }

  /** The events a machine state has seen, spelled out. */
  function SeenEvents(c: Sent, p: Machine): seq<Event> {
    [ResponseStart] + PartsEvents(c.parts) + OpenEvents(|c.parts| + 1, c.open)
    + (if p.state.Some? then [StateEvent(p.state.value)] else []) + (if p.completed then [ResponseEnd] else [])
  }

  ghost predicate Shape(lim: Limits, events: seq<Event>, c: Sent, p: Machine) {
    && (!p.started ==> events == [] && c == Sent([], None) && p == START)
    && (p.started ==> events == SeenEvents(c, p))
    && p.blocks == BlocksOf(c.parts)
    && p.active == (if c.open.None? then None else Some(Active(|c.parts| + 1, c.open.value.kind, c.open.value.deltas)))
    && p.totalChars == TotalChars(p.blocks) + OpenChars(c.open) <= lim.maxTextChars
    && (forall i :: 0 <= i < |c.parts| ==> GoodPart(c.parts[i]))
    && (c.open.Some? ==> forall i :: 0 <= i < |c.open.value.deltas| ==> c.open.value.deltas[i] != "")
    && (p.state.Some? ==>
          && c.open.None? && ValidBlocks(lim, p.blocks) && (p.blocks[0].kind.Conversation? ==> p.state.value.NoState?))
    && (p.completed ==> p.state.Some?)
  }

  lemma BlocksOfSnoc(parts: seq<Part>, part: Part)
    ensures BlocksOf(parts + [part]) == BlocksOf(parts) + [ContentBlock(part.kind, Joined(part.deltas))]
    ensures TotalChars(BlocksOf(parts + [part])) == TotalChars(BlocksOf(parts)) + |Joined(part.deltas)|
    ensures PartsEvents(parts + [part]) == PartsEvents(parts) + PartEvents(|parts| + 1, part)
  {
    hide *;
    AppendBlock(parts, part);
    TotalCharsSnoc(BlocksOf(parts), ContentBlock(part.kind, Joined(part.deltas)));
    AppendEvents(parts, part);
  }

  lemma AppendBlock(parts: seq<Part>, part: Part)
    ensures BlocksOf(parts + [part]) == BlocksOf(parts) + [ContentBlock(part.kind, Joined(part.deltas))]
  {
    hide Joined;
  }

  lemma AppendEvents(parts: seq<Part>, part: Part)
    ensures PartsEvents(parts + [part]) == PartsEvents(parts) + PartEvents(|parts| + 1, part)
  {
    hide PartEvents;
    assert (parts + [part])[..|parts + [part]| - 1] == parts;
  }

  lemma TotalCharsSnoc(blocks: seq<ContentBlock>, b: ContentBlock)
    ensures TotalChars(blocks + [b]) == TotalChars(blocks) + |b.text|
  {
    assert (blocks + [b])[..|blocks + [b]| - 1] == blocks;
  }

  lemma DeltasSnoc(id: nat, deltas: seq<string>, text: string)
    ensures Deltas(id, deltas + [text]) == Deltas(id, deltas) + [BlockDelta(id, text)]
  {
  }

  lemma ShapeStart(lim: Limits, events: seq<Event>, c: Sent, p: Machine, e: Event)
    requires Shape(lim, events, c, p) && Step(lim, p, e).Some? && (e.ResponseStart? || e.BlockStart?)
    ensures Shape(lim, events + [e], Add(c, e), Step(lim, p, e).value)
  {
    hide ValidBlocks, GoodPart, BlocksOf, TotalChars;
    if e.ResponseStart? {
      assert PartsEvents([]) == [];
      assert events + [e] == [ResponseStart];
    } else {
      assert OpenEvents(|c.parts| + 1, Add(c, e).open) == [e];
      assert Joined([]) == "";
      assert events == [ResponseStart] + PartsEvents(c.parts);
    }
  }

  lemma ShapeDelta(lim: Limits, events: seq<Event>, c: Sent, p: Machine, e: Event)
    requires Shape(lim, events, c, p) && Step(lim, p, e).Some? && e.BlockDelta?
    ensures Shape(lim, events + [e], Add(c, e), Step(lim, p, e).value)
  {
    hide ValidBlocks, GoodPart, BlocksOf, TotalChars, PartsEvents, Joined, Deltas;
    var id, open := |c.parts| + 1, c.open.value;
    DeltasSnoc(id, open.deltas, e.text);
    JoinedSnoc(open.deltas, e.text);
    assert events == [ResponseStart] + PartsEvents(c.parts) + OpenEvents(id, c.open);
  }

  lemma ShapeEnd(lim: Limits, events: seq<Event>, c: Sent, p: Machine, e: Event)
    requires Shape(lim, events, c, p) && Step(lim, p, e).Some? && e.BlockEnd?
    ensures Shape(lim, events + [e], Add(c, e), Step(lim, p, e).value)
  {
    hide ValidBlocks, BlocksOf, TotalChars, PartsEvents, Joined, Deltas, IsBlank;
    BlocksOfSnoc(c.parts, c.open.value);
    assert events == [ResponseStart] + PartsEvents(c.parts) + OpenEvents(|c.parts| + 1, c.open);
  }

  lemma ShapeTail(lim: Limits, events: seq<Event>, c: Sent, p: Machine, e: Event)
    requires Shape(lim, events, c, p) && Step(lim, p, e).Some? && (e.StateEvent? || e.ResponseEnd?)
    ensures Shape(lim, events + [e], Add(c, e), Step(lim, p, e).value)
  {
    hide ValidBlocks, GoodPart, BlocksOf, TotalChars, PartsEvents, Joined, Deltas;
  }

  lemma {:induction false} AcceptedShape(lim: Limits, events: seq<Event>)
    requires Steps(lim, events).Some?
    ensures Shape(lim, events, Collect(events), Steps(lim, events).value)
  {
    hide Shape, Step, Add, Collect, Steps;
    if events == [] {
      NothingShape(lim, events);
    } else {
      var before, e := events[..|events| - 1], events[|events| - 1];
      LastEvent(lim, events);
      AcceptedShape(lim, before);
      ShapeStep(lim, before, Collect(before), Steps(lim, before).value, e);
      assert events == before + [e];
    }
  }

  lemma NothingShape(lim: Limits, events: seq<Event>)
    requires events == []
    ensures Steps(lim, events).Some? && Shape(lim, events, Collect(events), Steps(lim, events).value)
  {
    assert BlocksOf([]) == [];
  }

  lemma LastEvent(lim: Limits, events: seq<Event>)
    requires events != [] && Steps(lim, events).Some?
    ensures var before, e := events[..|events| - 1], events[|events| - 1];
            && Steps(lim, before).Some?
            && Collect(events) == Add(Collect(before), e)
            && Steps(lim, events) == Step(lim, Steps(lim, before).value, e)
  {
    hide Step, Add;
  }

  lemma ShapeStep(lim: Limits, events: seq<Event>, c: Sent, p: Machine, e: Event)
    requires Shape(lim, events, c, p) && Step(lim, p, e).Some?
    ensures Shape(lim, events + [e], Add(c, e), Step(lim, p, e).value)
  {
    hide Shape, Step, Add;
    if e.ResponseStart? || e.BlockStart? {
      ShapeStart(lim, events, c, p, e);
    } else if e.BlockDelta? {
      ShapeDelta(lim, events, c, p, e);
    } else if e.BlockEnd? {
      ShapeEnd(lim, events, c, p, e);
    } else {
      ShapeTail(lim, events, c, p, e);
    }
  }

  // ----- the machine runs every grammatical response -----

  lemma StepsSnoc(lim: Limits, events: seq<Event>, e: Event)
    requires Steps(lim, events).Some?
    ensures Steps(lim, events + [e]) == Step(lim, Steps(lim, events).value, e)
  {
    hide Step;
    assert (events + [e])[..|events + [e]| - 1] == events;
  }

  function AfterParts(parts: seq<Part>): Machine {
    Machine(true, false, None, None, BlocksOf(parts), TotalChars(BlocksOf(parts)))
  }

  function AfterDeltas(parts: seq<Part>, kind: BlockKind, deltas: seq<string>): Machine {
    AfterParts(parts).(active := Some(Active(|parts| + 1, kind, deltas)), totalChars := TotalChars(BlocksOf(parts)) + |Joined(deltas)|)
  }

  lemma {:induction false} RunDeltas(lim: Limits, parts: seq<Part>, events: seq<Event>, part: Part, k: nat)
    requires k <= |part.deltas| && |parts| < lim.maxBlocks && GoodPart(part) && Steps(lim, events) == Some(AfterParts(parts))
    requires TotalChars(BlocksOf(parts)) + |Joined(part.deltas)| <= lim.maxTextChars
    ensures Steps(lim, events + [BlockStart(|parts| + 1, part.kind)] + Deltas(|parts| + 1, part.deltas[..k]))
            == Some(AfterDeltas(parts, part.kind, part.deltas[..k]))
  {
    hide Steps, BlocksOf, TotalChars, Joined, IsBlank;
    var id, start := |parts| + 1, events + [BlockStart(|parts| + 1, part.kind)];
    if k == 0 {
      StepsSnoc(lim, events, BlockStart(id, part.kind));
      assert part.deltas[..0] == [] && start + Deltas(id, []) == start;
      JoinedEmpty();
    } else {
      RunDeltas(lim, parts, events, part, k - 1);
      var before, text := part.deltas[..k - 1], part.deltas[k - 1];
      assert part.deltas[..k] == before + [text];
      DeltasSnoc(id, before, text);
      JoinedSnoc(before, text);
      JoinedGrows(part.deltas, k);
      StepsSnoc(lim, start + Deltas(id, before), BlockDelta(id, text));
      assert start + Deltas(id, before + [text]) == start + Deltas(id, before) + [BlockDelta(id, text)];
    }
  }

  lemma JoinedEmpty()
    ensures Joined([]) == ""
  {
  }

  lemma {:induction false} JoinedGrows(deltas: seq<string>, k: nat)
    requires k <= |deltas|
    ensures |Joined(deltas[..k])| <= |Joined(deltas)|
  {
    if k < |deltas| {
      JoinedGrows(deltas[..|deltas| - 1], k);
      assert deltas[..|deltas| - 1][..k] == deltas[..k];
    } else {
      assert deltas[..k] == deltas;
    }
  }

  lemma RunStart(lim: Limits)
    ensures Steps(lim, [ResponseStart] + PartsEvents([])) == Some(AfterParts([]))
  {
    assert [ResponseStart] + PartsEvents([]) == [] + [ResponseStart];
    StepsSnoc(lim, [], ResponseStart);
    assert BlocksOf([]) == [];
  }

  lemma {:induction false} RunParts(lim: Limits, parts: seq<Part>, k: nat)
    requires k <= |parts| <= lim.maxBlocks && (forall i :: 0 <= i < |parts| ==> GoodPart(parts[i]))
    requires TotalChars(BlocksOf(parts)) <= lim.maxTextChars
    ensures Steps(lim, [ResponseStart] + PartsEvents(parts[..k])) == Some(AfterParts(parts[..k]))
  {
    hide Steps, BlocksOf, TotalChars, Joined, PartsEvents, IsBlank;
    if k == 0 {
      assert parts[..0] == [];
      RunStart(lim);
    } else {
      RunParts(lim, parts, k - 1);
      var before, part := parts[..k - 1], parts[k - 1];
      assert parts[..k] == before + [part];
      BlocksOfSnoc(before, part);
      BlocksOfPrefix(parts, k);
      var events := [ResponseStart] + PartsEvents(before);
      RunDeltas(lim, before, events, part, |part.deltas|);
      assert part.deltas[..|part.deltas|] == part.deltas;
      var open := events + [BlockStart(k, part.kind)] + Deltas(k, part.deltas);
      StepsSnoc(lim, open, BlockEnd(k));
      assert [ResponseStart] + (PartsEvents(before) + PartEvents(k, part)) == open + [BlockEnd(k)];
    }
  }

  lemma BlocksOfPrefix(parts: seq<Part>, k: nat)
    requires k <= |parts|
    ensures TotalChars(BlocksOf(parts[..k])) <= TotalChars(BlocksOf(parts))
  {
    assert BlocksOf(parts)[..k] == BlocksOf(parts[..k]);
    TotalCharsGrows(BlocksOf(parts), k);
  }

  lemma GrammaticalIsAccepted(lim: Limits, parts: seq<Part>, state: StateOperation)
    requires Grammatical(lim, parts, state)
    ensures Accept(lim, ResponseEvents(parts, state)) == Some(Document(BlocksOf(parts), state))
  {
    hide Steps, BlocksOf, TotalChars, PartsEvents, GoodOrder, GoodPart;
    RunParts(lim, parts, |parts|);
    assert parts[..|parts|] == parts;
    var events := [ResponseStart] + PartsEvents(parts);
    StepsSnoc(lim, events, StateEvent(state));
    StepsSnoc(lim, events + [StateEvent(state)], ResponseEnd);
    assert ResponseEvents(parts, state) == events + [StateEvent(state)] + [ResponseEnd];
  }

  /**
   The decoder accepts exactly the grammar: a sequence of events yields a document if and only if it is the
   print of a grammatical response, and the document is that response's blocks and state.
   */
  lemma AcceptsExactlyTheGrammar(lim: Limits, events: seq<Event>, d: Document)
    ensures Accept(lim, events) == Some(d) <==>
            exists parts: seq<Part> :: Grammatical(lim, parts, d.state) && events == ResponseEvents(parts, d.state) && d.blocks == BlocksOf(parts)
  {
    if Accept(lim, events) == Some(d) {
      hide BlocksOf, TotalChars, GoodOrder, GoodPart, Step, Steps, Collect, PartsEvents;
      AcceptedShape(lim, events);
      var parts := Collect(events).parts;
      assert Grammatical(lim, parts, d.state) && d.blocks == BlocksOf(parts);
      assert events == ResponseEvents(parts, d.state);
    }
    if parts: seq<Part> :| Grammatical(lim, parts, d.state) && events == ResponseEvents(parts, d.state) && d.blocks == BlocksOf(parts) {
      GrammaticalIsAccepted(lim, parts, d.state);
    }
  }
}
