/**
 The live draft and the final document are built from the same events by different code
 (`_apply_live_events` in src/oveo/generation.py, `ProtocolDecoder` in src/oveo/protocol.py). They agree.
 */
module ProtocolDraft {
  import opened GenerationStatus
  import opened Protocol
  import Stream

  function OpOf(e: Event): seq<Stream.Op> {
    match e
    case BlockStart(_, kind) => [Stream.Start(kind)]
    case BlockDelta(_, text) => [Stream.Append(text)]
    case _ => []
  }

  /** The draft ops of a sequence of events. */
  function OpsOf(events: seq<Event>): seq<Stream.Op> {
    if events == [] then [] else OpsOf(events[..|events| - 1]) + OpOf(events[|events| - 1])
  }

  lemma {:induction false} ApplicableSnoc(open: bool, ops: seq<Stream.Op>, op: Stream.Op)
    requires Stream.Applicable(open, ops) && (op.Start? || (op.Append? && (open || ops != [])))
    ensures Stream.Applicable(open, ops + [op])
    decreases |ops|
  {
    if ops != [] {
      assert (ops + [op])[0] == ops[0] && (ops + [op])[1..] == ops[1..] + [op];
      ApplicableSnoc(true, ops[1..], op);
    }
  }

  lemma {:induction false} AddEventsSnoc(blocks: seq<Stream.LiveBlock>, ops: seq<Stream.Op>, op: Stream.Op)
    requires Stream.Applicable(blocks != [], ops) && (op.Start? || (op.Append? && (blocks != [] || ops != [])))
    ensures Stream.Applicable(blocks != [], ops + [op])
    ensures ops != [] ==> Stream.AddEvents(blocks, ops) != []
    ensures Stream.AddEvents(blocks, ops + [op]) == Stream.AddEvent(Stream.AddEvents(blocks, ops), op)
    decreases |ops|
  {
    ApplicableSnoc(blocks != [], ops, op);
    if ops == [] {
      assert ops + [op] == [op] && [op][1..] == [];
    } else {
      assert (ops + [op])[0] == ops[0] && (ops + [op])[1..] == ops[1..] + [op];
      var added := Stream.AddEvent(blocks, ops[0]);
      AddEventsSnoc(added, ops[1..], op);
    }
  }

  /** The draft that shows a machine state: its finished blocks and the one still open. */
  function Expected(p: Machine): seq<ContentBlock> {
    p.blocks + if p.active.None? then [] else [ContentBlock(p.active.value.kind, Joined(p.active.value.parts))]
  }

  lemma OpsSnoc(events: seq<Event>, e: Event)
    ensures OpsOf(events + [e]) == OpsOf(events) + OpOf(e)
  {
    assert (events + [e])[..|events + [e]| - 1] == events;
  }

  /** While the decoder accepts, every draft op applies and the draft shows the decoded blocks. */
  lemma {:induction false} DraftFollows(lim: Limits, events: seq<Event>)
    requires Steps(lim, events).Some?
    ensures Stream.Applicable(false, OpsOf(events))
    ensures Stream.ShownBlocks(Stream.AddEvents([], OpsOf(events))) == Expected(Steps(lim, events).value)
  {
    if events != [] {
      hide Step;
      var before, e := events[..|events| - 1], events[|events| - 1];
      assert events == before + [e];
      DraftFollows(lim, before);
      OpsSnoc(before, e);
      DraftStep(lim, Steps(lim, before).value, e, OpsOf(before));
    }
  }

  lemma DraftStep(lim: Limits, p: Machine, e: Event, ops: seq<Stream.Op>)
    requires Step(lim, p, e).Some? && Stream.Applicable(false, ops)
    requires Stream.ShownBlocks(Stream.AddEvents([], ops)) == Expected(p)
    ensures Stream.Applicable(false, ops + OpOf(e))
    ensures Stream.ShownBlocks(Stream.AddEvents([], ops + OpOf(e))) == Expected(Step(lim, p, e).value)
  {
    hide ValidBlocks, IsBlank, Joined;
    var draft, q := Stream.AddEvents([], ops), Step(lim, p, e).value;
    if e.BlockStart? || e.BlockDelta? {
      var op := OpOf(e)[0];
      if e.BlockDelta? {
        assert |Stream.ShownBlocks(draft)| > 0;
        JoinedSnoc(p.active.value.parts, e.text);
      }
      assert e.BlockDelta? ==> ops != [];
      AddEventsSnoc([], ops, op);
      Stream.AddEventMatches(Queued, 0, draft, op);
      JoinedEmpty();
      assert Stream.ShownBlocks(Stream.AddEvent(draft, op)) == Expected(q);
    } else {
      assert ops + [] == ops;
      assert Expected(q) == Expected(p);
    }
  }

  /** On acceptance the streamed draft is exactly the committed document. */
  lemma DraftEqualsDocument(lim: Limits, events: seq<Event>)
    requires Accept(lim, events).Some?
    ensures Stream.Applicable(false, OpsOf(events))
    ensures Stream.ShownBlocks(Stream.AddEvents([], OpsOf(events))) == Accept(lim, events).value.blocks
  {
    hide Steps, Shape, ValidBlocks;
    DraftFollows(lim, events);
    AcceptedIsClosed(lim, events);
  }

  lemma AcceptedIsClosed(lim: Limits, events: seq<Event>)
    requires Accept(lim, events).Some?
    ensures Steps(lim, events).value.active.None?
  {
    hide Steps, ValidBlocks, BlocksOf, TotalChars, SeenEvents;
    AcceptedShape(lim, events);
  }
}
