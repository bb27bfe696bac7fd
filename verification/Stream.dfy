/**
 The live event stream of one generation: the in-memory draft, one reader's bounded queue, the reader loop
 that turns it into server-sent events (src/oveo/generation.py), and the browser's copy
 (frontend/src/stream.ts).

 `history[k]` is the draft as it was when its sequence number became `k`. The stream refines it: whatever
 interleaving of deltas, resets, overflow and reads happens, the browser's copy is `history` at its own
 sequence number.
 */
module Stream {
  import opened GenerationStatus
  import opened Protocol

  datatype Op = Start(kind: BlockKind) | Append(text: string) | SetStatus(status: Status)

  /** A snapshot, as sent to and kept by the browser. */
  datatype View = View(status: Status, blocks: seq<ContentBlock>, number: nat)

  /** A block of the draft: its text is kept in the pieces it arrived in. */
  datatype LiveBlock = LiveBlock(kind: BlockKind, parts: seq<string>)

  datatype Live = Live(status: Status, number: nat, blocks: seq<LiveBlock>)

  datatype Item = Delta(number: nat, ops: seq<Op>) | Resync | Close

  const QUEUE_SIZE := 256

  // ----- the draft -----

  function ShownBlock(b: LiveBlock): ContentBlock {
    ContentBlock(b.kind, Joined(b.parts))
  }

  function ShownBlocks(blocks: seq<LiveBlock>): seq<ContentBlock> {
    seq(|blocks|, i requires 0 <= i < |blocks| => ShownBlock(blocks[i]))
  }

  function SnapshotOf(live: Live): View {
    View(live.status, ShownBlocks(live.blocks), live.number)
  }

  /** One decoded event added to the draft. */
  function AddEvent(blocks: seq<LiveBlock>, op: Op): seq<LiveBlock>
    requires op.Start? || (op.Append? && blocks != [])
  {
    if op.Start? then blocks + [LiveBlock(op.kind, [])]
    else
      var last := |blocks| - 1;
      blocks[last := LiveBlock(blocks[last].kind, blocks[last].parts + [op.text])]
  }

  /** Every text event has an open block before it, as the decoder guarantees. */
  predicate Applicable(open: bool, ops: seq<Op>)
    decreases |ops|
  {
    ops != [] ==> (ops[0].Start? || (ops[0].Append? && open)) && Applicable(true, ops[1..])
  }

  function AddEvents(blocks: seq<LiveBlock>, ops: seq<Op>): seq<LiveBlock>
    requires Applicable(blocks != [], ops)
    decreases |ops|
  {
    if ops == [] then blocks else AddEvents(AddEvent(blocks, ops[0]), ops[1..])
  }

  lemma FirstEvent(blocks: seq<LiveBlock>, ops: seq<Op>)
    requires Applicable(blocks != [], ops) && ops != []
    ensures ops[0].Start? || (ops[0].Append? && blocks != [])
    ensures var added := AddEvent(blocks, ops[0]);
            added != [] && Applicable(true, ops[1..]) && AddEvents(blocks, ops) == AddEvents(added, ops[1..])
  {
  }

  lemma NoMoreEvents(blocks: seq<LiveBlock>, ops: seq<Op>)
    requires ops == [] && Applicable(blocks != [], ops)
    ensures AddEvents(blocks, ops) == blocks
  {
  }

  /** The draft object; `_apply_live_events` adds decoded events and publishes them as one delta. */
  class LiveDraft {
    var status: Status
    var number: nat
    var blocks: seq<LiveBlock>

    constructor ()
      ensures Value() == Live(Queued, 0, [])
    {
      status, number, blocks := Queued, 0, [];
    }

    function Value(): Live
      reads this
    {
      Live(status, number, blocks)
    }

    method ApplyEvents(events: seq<Op>) returns (published: Option<Item>)
      requires Applicable(blocks != [], events)
      modifies this
      ensures Value() == if events == [] then old(Value())
                         else old(Value()).(blocks := AddEvents(old(blocks), events), number := old(number) + 1)
      ensures published == if events == [] then None else Some(Delta(number, events))
    {
      hide Applicable, AddEvents;
      var i := 0;
      assert events[0..] == events;
      while i < |events|
        invariant 0 <= i <= |events| && status == old(status) && number == old(number)
        invariant Applicable(blocks != [], events[i..])
        invariant AddEvents(blocks, events[i..]) == AddEvents(old(blocks), events)
      {
        assert events[i..][0] == events[i] && events[i..][1..] == events[i + 1..];
        FirstEvent(blocks, events[i..]);
        if events[i].Start? {
          blocks := blocks + [LiveBlock(events[i].kind, [])];
        } else {
          var last := |blocks| - 1;
          blocks := blocks[last := LiveBlock(blocks[last].kind, blocks[last].parts + [events[i].text])];
        }
        i := i + 1;
      }
      NoMoreEvents(blocks, events[i..]);
      if events == [] {
        NoMoreEvents(old(blocks), events);
        return None;
      }
      number := number + 1;
      return Some(Delta(number, events));
    }

    /** `_reset_draft_for_retry`: false once a Stop or shutdown owns the generation. */
    method Reset() returns (done: bool)
      modifies this
      ensures done == (old(status) == Running)
      ensures Value() == if done then old(Value()).(blocks := [], number := old(number) + 1) else old(Value())
    {
      if status != Running {
        return false;
      }
      blocks, number := [], number + 1;
      return true;
    }
  }

  // ----- the browser -----

  function ApplyOp(v: View, op: Op): Option<View> {
    match op
    case Start(kind) => Some(v.(blocks := v.blocks + [ContentBlock(kind, "")]))
    case Append(text) =>
      if v.blocks == [] then None
      else
        var last := |v.blocks| - 1;
        Some(v.(blocks := v.blocks[last := v.blocks[last].(text := v.blocks[last].text + text)]))
    case SetStatus(status) => Some(v.(status := status))
  }

  function ApplyOps(v: View, ops: seq<Op>): Option<View>
    decreases |ops|
  {
    if ops == [] then Some(v)
    else match ApplyOp(v, ops[0])
      case None => None
      case Some(w) => ApplyOps(w, ops[1..])
  }

  /** `applyDelta`: None on a sequence gap. */
  function ApplyDelta(v: View, first: nat, number: nat, ops: seq<Op>): Option<View> {
    if first != v.number + 1 then None
    else match ApplyOps(v, ops)
      case None => None
      case Some(w) => Some(w.(number := number))
  }

  /** The loop of `applyDelta` over a copied block list. */
  method ApplyDeltaLoop(v: View, first: nat, number: nat, ops: seq<Op>) returns (r: Option<View>)
    ensures r == ApplyDelta(v, first, number, ops)
  {
    if first != v.number + 1 {
      return None;
    }
    var blocks, status := v.blocks, v.status;
    var i := 0;
    assert ops[0..] == ops;
    while i < |ops|
      invariant 0 <= i <= |ops|
      invariant ApplyOps(v, ops) == ApplyOps(View(status, blocks, v.number), ops[i..])
    {
      var op := ops[i];
      assert ops[i..][0] == op && ops[i..][1..] == ops[i + 1..];
      match op {
        case Start(kind) =>
          blocks := blocks + [ContentBlock(kind, "")];
        case Append(text) =>
          if blocks == [] {
            return None;
          }
          var last := |blocks| - 1;
          blocks := blocks[last := blocks[last].(text := blocks[last].text + text)];
        case SetStatus(s) =>
          status := s;
      }
      i := i + 1;
    }
    return Some(View(status, blocks, number));
  }

  lemma {:induction false} ApplyOpsAppend(v: View, a: seq<Op>, b: seq<Op>)
    ensures ApplyOps(v, a + b) == match ApplyOps(v, a) case None => None case Some(w) => ApplyOps(w, b)
    decreases |a|
  {
    if a == [] {
      assert a + b == b;
    } else {
      assert (a + b)[0] == a[0] && (a + b)[1..] == a[1..] + b;
      if ApplyOp(v, a[0]).Some? {
        ApplyOpsAppend(ApplyOp(v, a[0]).value, a[1..], b);
      }
    }
  }

  /** Adding events to the draft and applying the matching ops to its snapshot agree. */
  lemma {:induction false} DraftMatchesOps(status: Status, number: nat, blocks: seq<LiveBlock>, ops: seq<Op>)
    requires Applicable(blocks != [], ops)
    ensures ApplyOps(SnapshotOf(Live(status, number, blocks)), ops) == Some(SnapshotOf(Live(status, number, AddEvents(blocks, ops))))
    decreases |ops|
  {
    if ops != [] {
      var added := AddEvent(blocks, ops[0]);
      AddEventMatches(status, number, blocks, ops[0]);
      DraftMatchesOps(status, number, added, ops[1..]);
    }
  }

  lemma AddEventMatches(status: Status, number: nat, blocks: seq<LiveBlock>, op: Op)
    requires op.Start? || (op.Append? && blocks != [])
    ensures AddEvent(blocks, op) != []
    ensures ApplyOp(SnapshotOf(Live(status, number, blocks)), op) == Some(SnapshotOf(Live(status, number, AddEvent(blocks, op))))
  {
    var added := AddEvent(blocks, op);
    var shown := ShownBlocks(blocks);
    if op.Start? {
      assert Joined([]) == "";
      assert ShownBlocks(added) == shown + [ContentBlock(op.kind, "")];
    } else {
      var last := |blocks| - 1;
      var parts := blocks[last].parts;
      assert (parts + [op.text])[..|parts + [op.text]| - 1] == parts;
      assert ShownBlocks(added) == shown[last := shown[last].(text := shown[last].text + op.text)];
    }
  }

  // ----- the bounded queue -----

  function Offer(queue: seq<Item>, item: Item): seq<Item> {
    if |queue| < QUEUE_SIZE then queue + [item]
    else if item.Close? || Close in queue then [Close]
    else [Resync]
  }

  class EventQueue {
    var items: seq<Item>

    constructor ()
      ensures items == []
    {
      items := [];
    }

    /** `_offer`: a reader that fell behind resynchronizes instead. */
    method Put(item: Item)
      modifies this
      ensures items == Offer(old(items), item)
    {
      if |items| < QUEUE_SIZE {
        items := items + [item];
        return;
      }
      var closing := item.Close?;
      ghost var all := items;
      ghost var drained: seq<Item> := [];
      while items != []
        invariant drained + items == all
        invariant closing <==> item.Close? || Close in drained
        decreases |items|
      {
        closing := items[0].Close? || closing;
        drained := drained + [items[0]];
        assert drained + items[1..] == all;
        items := items[1..];
      }
      assert drained == all;
      items := [if closing then Close else Resync];
    }

    /** The coalescing loop of `_events`: what is already queued and follows `last` joins one message. */
    method Coalesce(first: seq<Op>, last0: nat) returns (ops: seq<Op>, last: nat, pending: Option<Item>)
      modifies this
      ensures (ops, last, pending, items) == Coalesced(first, last0, old(items))
    {
      ops, last, pending := first, last0, None;
      while items != []
        invariant pending.None? && Coalesced(ops, last, items) == Coalesced(first, last0, old(items))
        decreases |items|
      {
        var queued := items[0];
        items := items[1..];
        if queued.Delta? && queued.number == last + 1 {
          ops := ops + queued.ops;
          last := queued.number;
        } else {
          pending := Some(queued);
          break;
        }
      }
    }
  }

  function Coalesced(ops: seq<Op>, last: nat, queue: seq<Item>): (seq<Op>, nat, Option<Item>, seq<Item>)
    decreases |queue|
  {
    if queue == [] then (ops, last, None, [])
    else if queue[0].Delta? && queue[0].number == last + 1 then Coalesced(ops + queue[0].ops, queue[0].number, queue[1..])
    else (ops, last, Some(queue[0]), queue[1..])
  }

  // ----- the system -----

  /** What the server last sent the browser. */
  datatype Message = Nothing | SentSnapshot(view: View) | SentDelta(first: nat, number: nat, ops: seq<Op>)

  datatype System = System(
    live: Live,
    final: Option<View>,          // the stored terminal row, once the draft is finished
    history: seq<View>,           // the recorded draft at every sequence number
    queue: seq<Item>,
    hand: Option<Item>,           // an item taken off the queue and not yet handled
    pending: Option<Item>,
    last: nat,
    client: View,
    connected: bool,
    sent: Message)

  function GetSnapshot(s: System): View {
    if s.final.Some? then s.final.value else SnapshotOf(s.live)
  }

  /** A reader that subscribes while the draft is live. */
  ghost predicate Init(s: System) {
    && !IsTerminal(s.live.status) && s.final.None?
    && |s.history| == s.live.number + 1 && s.history[s.live.number] == SnapshotOf(s.live)
    && s.queue == [] && s.hand.None? && s.pending.None?
    && s.client == SnapshotOf(s.live) && s.last == s.live.number && s.connected && s.sent == SentSnapshot(s.client)
  }

  function Publish(s: System, item: Item): (t: System)
    ensures t.history == s.history
  {
    s.(queue := Offer(s.queue, item))
  }

  function Record(s: System, live: Live): System {
    s.(live := live, history := s.history + [SnapshotOf(live)])
  }

  function SetLiveStatus(s: System, status: Status): (t: System)
    ensures s.history <= t.history
  {
    if s.final.Some? then Publish(s, Resync)
    else
      var live := s.live.(status := status, number := s.live.number + 1);
      Publish(Record(s, live), Delta(live.number, [SetStatus(status)]))
  }

  function ApplyLiveEvents(s: System, ops: seq<Op>): (t: System)
    requires s.final.None? && Applicable(s.live.blocks != [], ops)
    ensures s.history <= t.history
  {
    if ops == [] then s
    else
      var live := s.live.(blocks := AddEvents(s.live.blocks, ops), number := s.live.number + 1);
      Publish(Record(s, live), Delta(live.number, ops))
  }

  function ResetDraft(s: System): (t: System)
    requires s.final.None?
    ensures s.history <= t.history
  {
    var live := s.live.(blocks := [], number := s.live.number + 1);
    Publish(Record(s, live), Resync)
  }

  function Finish(s: System, stored: View): (t: System)
    ensures s.history <= t.history
  {
    if s.final.Some? then Publish(s, Resync)
    else Publish(s.(final := Some(stored)), Resync)
  }

  function CloseSession(s: System): (t: System)
    ensures t.history == s.history
  {
    s.(queue := [Close])
  }

  /** The reader takes its next item. */
  function Take(s: System): (t: System)
    requires s.hand.None? && (s.pending.Some? || s.queue != [])
    ensures t.history == s.history
  {
    if s.pending.Some? then s.(hand := s.pending, pending := None)
    else s.(hand := Some(s.queue[0]), queue := s.queue[1..])
  }

  /** Re-reads the authoritative snapshot and sends it if it is news. */
  function Resynchronize(s: System): (t: System)
    ensures t.history == s.history
  {
    var v := GetSnapshot(s);
    if IsTerminal(v.status) then s.(client := v, last := v.number, sent := SentSnapshot(v), connected := false)
    else if v.number != s.last then s.(client := v, last := v.number, sent := SentSnapshot(v))
    else s.(sent := Nothing)
  }

  /** Handles the item in hand. */
  function Handle(s: System): (t: System)
    requires s.hand.Some?
    ensures t.history == s.history
  {
    var item, base := s.hand.value, s.(hand := None);
    match item
    case Close => base.(connected := false, sent := Nothing)
    case Resync => Resynchronize(base)
    case Delta(number, ops) =>
      if number <= s.last then base.(sent := Nothing)
      else if number != s.last + 1 then Resynchronize(base)
      else
        var (all, last, pending, rest) := Coalesced(ops, number, s.queue);
        match ApplyDelta(s.client, number, last, all)
        case None => base.(queue := rest, pending := pending, last := last, sent := SentDelta(number, last, all), connected := false)
        case Some(v) => base.(queue := rest, pending := pending, last := last, sent := SentDelta(number, last, all), client := v)
  }

  ghost predicate Next(s: System, t: System) {
    || (exists status :: !IsTerminal(status) && t == SetLiveStatus(s, status))
    || (exists ops :: s.final.None? && s.live.status == Running && Applicable(s.live.blocks != [], ops) && t == ApplyLiveEvents(s, ops))
    || (s.final.None? && s.live.status == Running && t == ResetDraft(s))
    || (exists stored: View :: IsTerminal(stored.status) && t == Finish(s, stored))
    || t == Publish(s, Resync)
    || t == CloseSession(s)
    || (s.connected && s.hand.None? && (s.pending.Some? || s.queue != []) && t == Take(s))
    || (s.connected && s.hand.Some? && t == Handle(s))
    || (s.connected && s.hand.None? && s.pending.None? && s.queue == [] && s.final.Some? && t == Resynchronize(s))
    || t == s.(connected := false)
  }

  // ----- the invariant -----

  function Items(s: System): seq<Item> {
    (if s.hand.Some? then [s.hand.value] else []) + (if s.pending.Some? then [s.pending.value] else []) + s.queue
  }

  /** A queued delta takes the recorded draft before it to the recorded draft at its number. */
  predicate FitsHistory(history: seq<View>, item: Item) {
    item.Delta? ==>
      && 0 < item.number < |history|
      && ApplyOps(history[item.number - 1], item.ops) == Some(history[item.number].(number := item.number - 1))
  }

  /** Reading on from `last` reaches the current number, unless a resynchronization comes first. */
  predicate Covers(last: nat, items: seq<Item>, current: Option<nat>)
    decreases |items|
  {
    if items == [] then current == Some(last)
    else if !items[0].Delta? then true
    else if items[0].number <= last then Covers(last, items[1..], current)
    else if items[0].number == last + 1 then Covers(items[0].number, items[1..], current)
    else true
  }

  /** The number a quiescent reader must be at; none once the draft is finished. */
  function Current(s: System): Option<nat> {
    if s.final.Some? then None else Some(s.live.number)
  }

  ghost predicate AllFit(history: seq<View>, items: seq<Item>) {
    forall i :: 0 <= i < |items| ==> FitsHistory(history, items[i])
  }

  ghost predicate Inv(s: System) {
    && |s.history| == s.live.number + 1
    && (forall k :: 0 <= k < |s.history| ==> s.history[k].number == k)
    && (s.final.None? ==> !IsTerminal(s.live.status) && s.history[s.live.number] == SnapshotOf(s.live))
    && (s.final.Some? ==> IsTerminal(s.final.value.status))
    && AllFit(s.history, Items(s))
    && (s.connected ==>
          && s.last <= s.live.number && s.client == s.history[s.last]
          && !(s.hand.Some? && s.pending.Some?)
          && Covers(s.last, Items(s), Current(s)))
  }

  lemma {:induction false} CoversMore(last: nat, items: seq<Item>, current: nat, ops: seq<Op>)
    requires Covers(last, items, Some(current))
    ensures Covers(last, items + [Delta(current + 1, ops)], Some(current + 1))
    decreases |items|
  {
    if items != [] {
      assert (items + [Delta(current + 1, ops)])[1..] == items[1..] + [Delta(current + 1, ops)];
      if items[0].Delta? && items[0].number <= last {
        CoversMore(last, items[1..], current, ops);
      } else if items[0].Delta? && items[0].number == last + 1 {
        CoversMore(items[0].number, items[1..], current, ops);
      }
    }
  }

  /** A signal at the end covers everything before it. */
  lemma {:induction false} CoversSignal(last: nat, items: seq<Item>, signal: Item, current: Option<nat>)
    requires !signal.Delta?
    ensures Covers(last, items + [signal], current)
    decreases |items|
  {
    if items != [] {
      assert (items + [signal])[1..] == items[1..] + [signal];
      if items[0].Delta? && items[0].number <= last {
        CoversSignal(last, items[1..], signal, current);
      } else if items[0].Delta? && items[0].number == last + 1 {
        CoversSignal(items[0].number, items[1..], signal, current);
      }
    }
  }

  function Held(s: System): seq<Item> {
    (if s.hand.Some? then [s.hand.value] else []) + (if s.pending.Some? then [s.pending.value] else [])
  }

  lemma FitLonger(history: seq<View>, v: View, items: seq<Item>)
    requires AllFit(history, items)
    ensures AllFit(history + [v], items)
  {
    hide ApplyOps;
  }

  /** Offering a delta for the new number, or a signal, keeps the reader covered. */
  lemma OfferCovers(held: seq<Item>, queue: seq<Item>, item: Item, last: nat, before: Option<nat>, after: Option<nat>)
    requires Covers(last, held + queue, before)
    requires item.Delta? ==> before.Some? && item.number == before.value + 1 && after == Some(item.number)
    ensures Covers(last, held + Offer(queue, item), after)
  {
    if |queue| < QUEUE_SIZE {
      assert held + (queue + [item]) == held + queue + [item];
      if item.Delta? {
        CoversMore(last, held + queue, before.value, item.ops);
      } else {
        CoversSignal(last, held + queue, item, after);
      }
    } else {
      CoversSignal(last, held, Offer(queue, item)[0], after);
    }
  }

  lemma OfferFits(history: seq<View>, held: seq<Item>, queue: seq<Item>, item: Item)
    requires AllFit(history, held + queue) && FitsHistory(history, item)
    ensures AllFit(history, held + Offer(queue, item))
  {
    hide ApplyOps;
    forall i | 0 <= i < |held + Offer(queue, item)|
      ensures FitsHistory(history, (held + Offer(queue, item))[i])
    {
      if i < |held| + |queue| && |queue| < QUEUE_SIZE {
        assert (held + Offer(queue, item))[i] == (held + queue)[i];
      } else if i < |held| {
        assert (held + Offer(queue, item))[i] == (held + queue)[i];
      }
    }
  }

  // ----- every step keeps it -----

  lemma ItemsSplit(s: System)
    ensures Items(s) == Held(s) + s.queue
  {
  }

  /** A step of the draft that is published as the delta `ops`. */
  lemma RecordedDelta(s: System, live: Live, ops: seq<Op>)
    requires Inv(s) && s.final.None? && live.number == s.live.number + 1 && !IsTerminal(live.status)
    requires ApplyOps(SnapshotOf(s.live), ops) == Some(SnapshotOf(live).(number := s.live.number))
    ensures Inv(Publish(Record(s, live), Delta(live.number, ops)))
  {
    hide ApplyOps, Covers, Offer;
    var t := Publish(Record(s, live), Delta(live.number, ops));
    ItemsSplit(s);
    ItemsSplit(t);
    FitLonger(s.history, SnapshotOf(live), Items(s));
    assert t.history[live.number] == SnapshotOf(live) && t.history[s.live.number] == SnapshotOf(s.live);
    OfferFits(t.history, Held(s), s.queue, Delta(live.number, ops));
    if s.connected {
      OfferCovers(Held(s), s.queue, Delta(live.number, ops), s.last, Current(s), Current(t));
    }
  }

  lemma SignalKeeps(s: System)
    requires Inv(s)
    ensures Inv(Publish(s, Resync)) && Inv(CloseSession(s))
  {
    hide ApplyOps, Covers, Offer;
    var t, u := Publish(s, Resync), CloseSession(s);
    ItemsSplit(s);
    ItemsSplit(t);
    ItemsSplit(u);
    OfferFits(s.history, Held(s), s.queue, Resync);
    if s.connected {
      OfferCovers(Held(s), s.queue, Resync, s.last, Current(s), Current(t));
      CoversSignal(s.last, Held(s), Close, Current(u));
    }
    assert AllFit(s.history, Items(u)) by {
      assert forall i :: 0 <= i < |Held(s)| ==> Items(u)[i] == Items(s)[i];
    }
  }

  lemma StatusKeeps(s: System, status: Status)
    requires Inv(s) && !IsTerminal(status)
    ensures Inv(SetLiveStatus(s, status))
  {
    if s.final.Some? {
      SignalKeeps(s);
    } else {
      var live := s.live.(status := status, number := s.live.number + 1);
      var v := SnapshotOf(s.live);
      assert ApplyOps(v, [SetStatus(status)]) == ApplyOps(v.(status := status), []);
      RecordedDelta(s, live, [SetStatus(status)]);
    }
  }

  lemma EventsKeep(s: System, ops: seq<Op>)
    requires Inv(s) && s.final.None? && Applicable(s.live.blocks != [], ops)
    ensures Inv(ApplyLiveEvents(s, ops))
  {
    if ops != [] {
      var live := s.live.(blocks := AddEvents(s.live.blocks, ops), number := s.live.number + 1);
      DraftMatchesOps(s.live.status, s.live.number, s.live.blocks, ops);
      RecordedDelta(s, live, ops);
    }
  }

  lemma ResetKeeps(s: System)
    requires Inv(s) && s.final.None?
    ensures Inv(ResetDraft(s))
  {
    hide ApplyOps, Covers, Offer;
    var t := ResetDraft(s);
    ItemsSplit(s);
    ItemsSplit(t);
    FitLonger(s.history, SnapshotOf(t.live), Items(s));
    OfferFits(t.history, Held(s), s.queue, Resync);
    if s.connected {
      OfferCovers(Held(s), s.queue, Resync, s.last, Current(s), Current(t));
    }
  }

  lemma FinishKeeps(s: System, stored: View)
    requires Inv(s) && IsTerminal(stored.status)
    ensures Inv(Finish(s, stored))
  {
    if s.final.Some? {
      SignalKeeps(s);
    } else {
      hide ApplyOps, Covers, Offer;
      var t := Finish(s, stored);
      ItemsSplit(s);
      ItemsSplit(t);
      OfferFits(s.history, Held(s), s.queue, Resync);
      if s.connected {
        OfferCovers(Held(s), s.queue, Resync, s.last, Current(s), Current(t));
      }
    }
  }

  lemma TakeKeeps(s: System)
    requires Inv(s) && s.connected && s.hand.None? && (s.pending.Some? || s.queue != [])
    ensures Inv(Take(s)) && Items(Take(s)) == Items(s)
  {
    hide ApplyOps, Covers;
    assert Items(Take(s)) == Items(s);
  }

  /** After a resynchronization every queued delta is old news. */
  lemma {:induction false} CoversOld(current: nat, items: seq<Item>, history: seq<View>)
    requires AllFit(history, items) && |history| == current + 1
    ensures Covers(current, items, Some(current))
    decreases |items|
  {
    if items != [] {
      hide ApplyOps;
      assert FitsHistory(history, items[0]);
      assert forall i :: 0 <= i < |items[1..]| ==> items[1..][i] == items[i + 1];
      CoversOld(current, items[1..], history);
    }
  }

  lemma ResyncKeeps(s: System)
    requires Inv(s.(connected := false)) && s.hand.None? && (s.connected ==> s.last <= s.live.number && s.client == s.history[s.last])
    ensures Inv(Resynchronize(s))
  {
    hide ApplyOps, Covers;
    var t := Resynchronize(s);
    assert Items(t) == Items(s) == Items(s.(connected := false));
    if s.final.None? {
      CoversOld(s.live.number, Items(s), s.history);
    }
  }

  /** Coalescing applies a run of recorded deltas one after the other. */
  lemma {:induction false} CoalesceFits(history: seq<View>, start: nat, ops: seq<Op>, last: nat, queue: seq<Item>, current: Option<nat>)
    requires AllFit(history, queue) && start < last < |history| && (forall k :: 0 <= k < |history| ==> history[k].number == k)
    requires ApplyOps(history[start], ops) == Some(history[last].(number := start)) && Covers(last, queue, current)
    ensures var (all, end, pending, rest) := Coalesced(ops, last, queue);
            && last <= end < |history|
            && ApplyOps(history[start], all) == Some(history[end].(number := start))
            && AllFit(history, (if pending.Some? then [pending.value] else []) + rest)
            && Covers(end, (if pending.Some? then [pending.value] else []) + rest, current)
    decreases |queue|
  {
    if queue != [] {
      assert queue == [queue[0]] + queue[1..];
      if queue[0].Delta? && queue[0].number == last + 1 {
        assert FitsHistory(history, queue[0]);
        assert forall i :: 0 <= i < |queue[1..]| ==> queue[1..][i] == queue[i + 1];
        ApplyOpsAppend(history[start], ops, queue[0].ops);
        ApplyOpsNumber(history[last], start, queue[0].ops);
        CoalesceFits(history, start, ops + queue[0].ops, last + 1, queue[1..], current);
      }
    } else {
      assert [] + queue == [];
    }
  }

  /** The sequence number plays no part in applying ops. */
  lemma {:induction false} ApplyOpsNumber(v: View, number: nat, ops: seq<Op>)
    ensures ApplyOps(v.(number := number), ops) ==
            match ApplyOps(v, ops) case None => None case Some(w) => Some(w.(number := number))
    ensures ApplyOps(v, ops).Some? ==> ApplyOps(v, ops).value.number == v.number
    decreases |ops|
  {
    if ops != [] {
      var r := ApplyOp(v, ops[0]);
      if r.Some? {
        ApplyOpsNumber(r.value, number, ops[1..]);
      }
    }
  }

  lemma HandSplit(s: System)
    requires s.hand.Some? && s.pending.None?
    ensures Items(s) == [s.hand.value] + s.queue && Items(s)[1..] == s.queue
    ensures Items(s.(hand := None)) == s.queue
  {
  }

  /** A delta message: it follows the browser's copy, is never refused, and ends at the recorded draft. */
  lemma DeltaFollows(s: System)
    requires Inv(s) && s.connected && s.hand.Some? && s.hand.value.Delta? && s.hand.value.number == s.last + 1
    ensures var t := Handle(s);
            && t.sent.SentDelta? && t.sent.first == s.client.number + 1
            && t.sent.number < |s.history|
            && ApplyDelta(s.client, t.sent.first, t.sent.number, t.sent.ops) == Some(s.history[t.sent.number])
            && t.connected && t.client == s.history[t.last] && t.last == t.sent.number
    ensures Inv(Handle(s))
  {
    hide ApplyOps, Covers, Coalesced, Inv;
    var item := s.hand.value;
    DeltaInHand(s);
    var (all, end, pending, rest) := Coalesced(item.ops, item.number, s.queue);
    assert s.history[end].(number := s.last).(number := end) == s.history[end];
    var t := Handle(s);
    assert Items(t) == (if pending.Some? then [pending.value] else []) + rest;
    DeltaHandled(s, t);
  }

  lemma DeltaInHand(s: System)
    requires Inv(s) && s.connected && s.hand.Some? && s.hand.value.Delta? && s.hand.value.number == s.last + 1
    ensures s.client == s.history[s.last] && s.client.number == s.last
    ensures var (all, end, pending, rest) := Coalesced(s.hand.value.ops, s.hand.value.number, s.queue);
            && end < |s.history| && s.history[end].number == end
            && ApplyOps(s.history[s.last], all) == Some(s.history[end].(number := s.last))
            && AllFit(s.history, (if pending.Some? then [pending.value] else []) + rest)
            && Covers(end, (if pending.Some? then [pending.value] else []) + rest, Current(s))
  {
    hide ApplyOps, Coalesced;
    var item := s.hand.value;
    HandSplit(s);
    assert FitsHistory(s.history, Items(s)[0]);
    assert forall i :: 0 <= i < |s.queue| ==> s.queue[i] == Items(s)[i + 1];
    CoalesceFits(s.history, s.last, item.ops, item.number, s.queue, Current(s));
  }

  /** Only the reader's side changed, and it is consistent. */
  lemma DeltaHandled(s: System, t: System)
    requires Inv(s) && t.live == s.live && t.final == s.final && t.history == s.history && t.hand.None?
    requires AllFit(t.history, Items(t)) && Covers(t.last, Items(t), Current(t))
    requires t.last < |t.history| && t.client == t.history[t.last]
    ensures Inv(t)
  {
    hide ApplyOps, Covers;
  }

  lemma HandleKeeps(s: System)
    requires Inv(s) && s.connected && s.hand.Some?
    ensures Inv(Handle(s))
  {
    hide ApplyOps, Covers, Coalesced, Inv, Resynchronize;
    var item, t := s.hand.value, s.(hand := None);
    WithoutHand(s);
    match item
    case Close =>
      assert Handle(s) == t.(connected := false, sent := Nothing);
      DisconnectedInv(t.(connected := false, sent := Nothing));
    case Resync => ResyncKeeps(t);
    case Delta(number, ops) =>
      if number == s.last + 1 {
        DeltaFollows(s);
      } else if number > s.last {
        ResyncKeeps(t);
      } else {
        OldDelta(s);
      }
  }

  lemma WithoutHand(s: System)
    requires Inv(s) && s.connected && s.hand.Some?
    ensures var t := s.(hand := None);
            Inv(t.(connected := false)) && Inv(t.(connected := false, sent := Nothing)) && s.last <= s.live.number && s.client == s.history[s.last]
  {
    hide ApplyOps, Covers;
    HandSplit(s);
    var t := s.(hand := None);
    assert Items(t.(connected := false)) == s.queue && Items(t.(connected := false, sent := Nothing)) == s.queue;
    assert forall i :: 0 <= i < |s.queue| ==> s.queue[i] == Items(s)[i + 1];
  }

  lemma OldDelta(s: System)
    requires Inv(s) && s.connected && s.hand.Some? && s.hand.value.Delta? && s.hand.value.number <= s.last
    ensures Inv(s.(hand := None, sent := Nothing))
  {
    hide ApplyOps;
    HandSplit(s);
    var t := s.(hand := None, sent := Nothing);
    assert Items(t) == s.queue;
    assert forall i :: 0 <= i < |s.queue| ==> s.queue[i] == Items(s)[i + 1];
  }

  lemma InitInv(s: System)
    requires Init(s) && forall k :: 0 <= k < |s.history| ==> s.history[k].number == k
    ensures Inv(s)
  {
  }

  lemma NextKeeps(s: System, t: System)
    requires Inv(s) && Next(s, t)
    ensures Inv(t) && s.history <= t.history
  {
    hide SetLiveStatus, ApplyLiveEvents, ResetDraft, Finish, Publish, CloseSession, Take, Handle, Resynchronize, Inv, Applicable;
    if status :| !IsTerminal(status) && t == SetLiveStatus(s, status) {
      StatusKeeps(s, status);
      HistoryGrows(s, t);
    } else if ops :| s.final.None? && s.live.status == Running && Applicable(s.live.blocks != [], ops) && t == ApplyLiveEvents(s, ops) {
      EventsKeep(s, ops);
      HistoryGrows(s, t);
    } else if s.final.None? && s.live.status == Running && t == ResetDraft(s) {
      ResetKeeps(s);
      HistoryGrows(s, t);
    } else if stored: View :| IsTerminal(stored.status) && t == Finish(s, stored) {
      FinishKeeps(s, stored);
      HistoryGrows(s, t);
    } else if t == Publish(s, Resync) || t == CloseSession(s) {
      SignalKeeps(s);
      HistoryGrows(s, t);
    } else if s.connected && s.hand.None? && (s.pending.Some? || s.queue != []) && t == Take(s) {
      TakeKeeps(s);
      HistoryGrows(s, t);
    } else if s.connected && s.hand.Some? && t == Handle(s) {
      HandleKeeps(s);
      HistoryGrows(s, t);
    } else if s.connected && s.hand.None? && s.pending.None? && s.queue == [] && s.final.Some? && t == Resynchronize(s) {
      DisconnectedInv(s);
      ResyncKeeps(s);
      HistoryGrows(s, t);
    } else {
      DisconnectedInv(s);
    }
  }

  lemma DisconnectedInv(s: System)
    requires Inv(s)
    ensures Inv(s.(connected := false))
    ensures s.connected ==> s.last <= s.live.number && s.client == s.history[s.last]
  {
    hide ApplyOps, Covers;
    assert Items(s.(connected := false)) == Items(s);
  }

  lemma HistoryGrows(s: System, t: System)
    requires Next(s, t)
    ensures s.history <= t.history
  {
    hide Handle, Take, Resynchronize, SetLiveStatus, ApplyLiveEvents, ResetDraft, Finish, CloseSession, Publish, Applicable;
  }

  // ----- whole runs -----

  ghost predicate IsRun(run: seq<System>) {
    && run != [] && Init(run[0]) && (forall k :: 0 <= k < |run[0].history| ==> run[0].history[k].number == k)
    && (forall i :: 0 <= i < |run| - 1 ==> Next(run[i], run[i + 1]))
  }

  lemma {:induction false} RunKeeps(run: seq<System>, i: nat)
    requires IsRun(run) && i < |run|
    ensures Inv(run[i])
  {
    hide Init, Next, Inv;
    if i == 0 {
      InitInv(run[0]);
    } else {
      RunKeeps(run, i - 1);
      assert Next(run[i - 1], run[i - 1 + 1]);
      NextKeeps(run[i - 1], run[i]);
    }
  }

  /**
   Stream refinement. In every state of every run a connected browser holds the draft exactly as the server
   recorded it at the browser's sequence number, and that record never changes afterwards.
   */
  lemma BrowserShowsHistory(run: seq<System>, i: nat, j: nat)
    requires IsRun(run) && i <= j < |run| && run[i].connected
    ensures var s := run[i];
            && s.client.number == s.last < |s.history| <= |run[j].history|
            && s.client == s.history[s.last] == run[j].history[s.last]
  {
    hide Init, Next, Inv;
    RunKeeps(run, i);
    ConnectedShows(run[i]);
    HistoryOfRun(run, i, j);
  }

  lemma ConnectedShows(s: System)
    requires Inv(s) && s.connected
    ensures s.last < |s.history| && s.client == s.history[s.last] && s.client.number == s.last
  {
  }

  lemma {:induction false} HistoryOfRun(run: seq<System>, i: nat, j: nat)
    requires IsRun(run) && i <= j < |run|
    ensures run[i].history <= run[j].history
    decreases j
  {
    hide Init, Next, Inv;
    if i < j {
      HistoryOfRun(run, i, j - 1);
      RunKeeps(run, j - 1);
      assert Next(run[j - 1], run[j - 1 + 1]);
      NextKeeps(run[j - 1], run[j]);
    }
  }

  /** No delta is ever refused: each one follows the browser's copy, so the fallback to polling is never needed. */
  lemma NoDeltaRefused(run: seq<System>, i: nat)
    requires IsRun(run) && i + 1 < |run| && run[i].connected && run[i].hand.Some? && run[i + 1] == Handle(run[i])
    requires run[i + 1].sent.SentDelta?
    ensures var m := run[i + 1].sent;
            && m.first == run[i].client.number + 1
            && ApplyDelta(run[i].client, m.first, m.number, m.ops) == Some(run[i + 1].client)
            && run[i + 1].connected
  {
    hide Init, Next, Inv, Coalesced, ApplyDelta;
    RunKeeps(run, i);
    DeltaFollows(run[i]);
  }

  /** A quiet stream is up to date: nothing queued, held or pending means the browser shows the live draft. */
  lemma QuietIsCurrent(run: seq<System>, i: nat)
    requires IsRun(run) && i < |run| && run[i].connected && Items(run[i]) == []
    ensures run[i].final.None? && run[i].client == SnapshotOf(run[i].live)
  {
    hide Init, Next, ApplyOps;
    RunKeeps(run, i);
  }

  // ----- the reader catches up -----

  /** One reader step, with the server idle. */
  function ReaderStep(s: System): System {
    if !s.connected || Items(s) == [] then s
    else if s.hand.Some? then Handle(s)
    else Take(s)
  }

  function Backlog(s: System): nat {
    (if s.hand.Some? then 1 else 0) + (if s.pending.Some? then 2 else 0) + 2 * |s.queue|
  }

  function ReaderSteps(s: System, n: nat): System
    decreases n
  {
    if n == 0 then s else ReaderSteps(ReaderStep(s), n - 1)
  }

  lemma {:induction false} CoalescedShrinks(ops: seq<Op>, last: nat, queue: seq<Item>)
    ensures var r := Coalesced(ops, last, queue);
            (if r.2.Some? then 1 else 0) + |r.3| <= |queue|
    decreases |queue|
  {
    if queue != [] && queue[0].Delta? && queue[0].number == last + 1 {
      CoalescedShrinks(ops + queue[0].ops, queue[0].number, queue[1..]);
    }
  }

  lemma ReaderAdvances(s: System)
    requires Inv(s) && s.connected && Items(s) != []
    ensures Inv(ReaderStep(s)) && Backlog(ReaderStep(s)) < Backlog(s) && ReaderStep(s).live == s.live && ReaderStep(s).final == s.final
  {
    hide ApplyOps, Covers, Inv;
    PendingAlone(s);
    if s.hand.Some? {
      HandleKeeps(s);
      if s.hand.value.Delta? {
        CoalescedShrinks(s.hand.value.ops, s.hand.value.number, s.queue);
      }
    } else {
      TakeKeeps(s);
    }
  }

  lemma PendingAlone(s: System)
    requires Inv(s) && s.connected
    ensures !(s.hand.Some? && s.pending.Some?)
  {
  }

  /**
   Once the server pauses, the reader needs only finitely many steps: then either the stream was closed, or the
   browser shows the live draft.
   */
  lemma {:induction false} ReaderCatchesUp(s: System, n: nat)
    requires Inv(s) && n >= Backlog(s)
    ensures var t := ReaderSteps(s, n);
            t.connected ==> s.final.None? && t.client == SnapshotOf(s.live)
    decreases n
  {
    hide Inv, SnapshotOf;
    if n > 0 && s.connected && Items(s) != [] {
      ReaderAdvances(s);
      ReaderCatchesUp(ReaderStep(s), n - 1);
    } else {
      Rests(s, n);
      if s.connected {
        QuietState(s);
      }
    }
  }

  lemma QuietState(s: System)
    requires Inv(s) && s.connected && Items(s) == []
    ensures s.final.None? && s.client == SnapshotOf(s.live)
  {
  }

  lemma {:induction false} Rests(s: System, n: nat)
    requires !s.connected || Items(s) == []
    ensures ReaderSteps(s, n) == s
    decreases n
  {
    if n > 0 {
      Rests(s, n - 1);
    }
  }
}
