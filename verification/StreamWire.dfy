/**
 The stream with messages in flight: the server's reader (`_events`, src/oveo/generation.py) sends, the browser
 (frontend/src/stream.ts) applies messages later and in order, and a broken connection loses what is in flight.
 */
module StreamWire {
  import opened GenerationStatus
  import opened Protocol
  import opened Stream

  // ----- how a stream ends -----

  lemma FinishedReads(s: System)
    requires Inv(s) && s.connected && s.final.Some?
    ensures Items(s) != []
  {
    hide ApplyOps;
  }

  /** One reader step of a finished stream: it goes on, or the terminal snapshot was sent. */
  lemma FinishedStep(s: System)
    requires Inv(s) && s.connected && s.final.Some? && Close !in Items(s)
    ensures var t := ReaderStep(s);
            && t.final == s.final
            && (if t.connected then Close !in Items(t) else t.client == s.final.value && t.sent == SentSnapshot(t.client))
  {
    hide ApplyOps, Covers, Inv, ApplyDelta;
    FinishedReads(s);
    PendingAlone(s);
    if s.hand.Some? {
      HandSplit(s);
      assert s.hand.value == Items(s)[0];
      FinalIsTerminal(s);
      if s.hand.value.Delta? && s.hand.value.number == s.last + 1 {
        DeltaFollows(s);
        CoalescedKeepsOut(s.hand.value.ops, s.hand.value.number, s.queue);
      }
    } else {
      TakeKeeps(s);
    }
  }

  lemma FinalIsTerminal(s: System)
    requires Inv(s) && s.final.Some?
    ensures IsTerminal(s.final.value.status)
  {
  }

  lemma {:induction false} CoalescedKeepsOut(ops: seq<Op>, last: nat, queue: seq<Item>)
    requires Close !in queue
    ensures var r := Coalesced(ops, last, queue); Close !in r.3 && r.2 != Some(Close)
    decreases |queue|
  {
    if queue != [] && queue[0].Delta? && queue[0].number == last + 1 {
      CoalescedKeepsOut(ops + queue[0].ops, queue[0].number, queue[1..]);
    }
  }

  /** Once the draft is finished, and unless the session is closed, the reader ends the stream with the stored result. */
  lemma {:induction false} StreamEndsWithResult(s: System, n: nat)
    requires Inv(s) && s.connected && s.final.Some? && Close !in Items(s) && n >= Backlog(s)
    ensures var t := ReaderSteps(s, n);
            !t.connected && t.client == s.final.value && t.sent == SentSnapshot(s.final.value)
    decreases n
  {
    hide Inv;
    FinishedReads(s);
    ReaderAdvances(s);
    FinishedStep(s);
    var t := ReaderStep(s);
    if t.connected {
      StreamEndsWithResult(t, n - 1);
    } else {
      Rests(t, n - 1);
    }
  }

  // ----- messages in flight -----

  /** The browser's copy, once it has one, and the messages it has not received; `lost` once some never arrive. */
  datatype Wired = Wired(core: System, wire: seq<Message>, browser: Option<View>, lost: bool)

  /** What the browser makes of a message; a delta before the first snapshot is ignored by the source, None here. */
  function Receive(browser: Option<View>, m: Message): Option<View> {
    match m
    case Nothing => browser
    case SentSnapshot(v) => Some(v)
    case SentDelta(first, number, ops) => if browser.None? then None else ApplyDelta(browser.value, first, number, ops)
  }

  function ReceiveAll(browser: Option<View>, wire: seq<Message>): Option<View> {
    if wire == [] then browser else Receive(ReceiveAll(browser, wire[..|wire| - 1]), wire[|wire| - 1])
  }

  /** The reader handles an item, or looks again on an idle stream; it may send one message. */
  ghost predicate Reads(s: System, t: System) {
    || (s.connected && s.hand.Some? && t == Handle(s))
    || (s.connected && s.hand.None? && s.pending.None? && s.queue == [] && s.final.Some? && t == Resynchronize(s))
  }

  ghost predicate WiredNext(w: Wired, x: Wired) {
    || (Reads(w.core, x.core) && x == Wired(x.core, if x.core.sent.Nothing? then w.wire else w.wire + [x.core.sent], w.browser, w.lost))
    || (Next(w.core, x.core) && x.core.client == w.core.client && x == w.(core := x.core))
    || (w.wire != [] && x == w.(wire := w.wire[1..], browser := Receive(w.browser, w.wire[0])))
    || (exists k :: 0 <= k <= |w.wire| && x == Wired(w.core.(connected := false), w.wire[..k], w.browser, true))
  }

  ghost predicate WiredRun(run: seq<Wired>) {
    && run != []
    && Init(run[0].core) && (forall k :: 0 <= k < |run[0].core.history| ==> run[0].core.history[k].number == k && !IsTerminal(run[0].core.history[k].status))
    && run[0] == Wired(run[0].core, [run[0].core.sent], None, false)
    && forall i :: 0 <= i < |run| - 1 ==> WiredNext(run[i], run[i + 1])
  }

  /** A view the server recorded: the draft at its number, or the stored result. */
  ghost predicate Recorded(s: System, v: View) {
    s.final == Some(v) || (v.number < |s.history| && s.history[v.number] == v && !IsTerminal(v.status))
  }

  /** Everything the browser shows now or will show is recorded, and no message is refused. */
  ghost predicate AllRecorded(s: System, browser: Option<View>, wire: seq<Message>) {
    && (browser.Some? ==> Recorded(s, browser.value))
    && forall k :: 0 < k <= |wire| ==> ReceiveAll(browser, wire[..k]).Some? && Recorded(s, ReceiveAll(browser, wire[..k]).value)
  }

  ghost predicate Lively(s: System) {
    forall k :: 0 <= k < |s.history| ==> !IsTerminal(s.history[k].status)
  }

  ghost predicate WiredInv(w: Wired) {
    && Inv(w.core) && Lively(w.core) && AllRecorded(w.core, w.browser, w.wire)
    && (w.wire == [] && w.browser.None? ==> w.lost)
    && (!w.lost ==> ReceiveAll(w.browser, w.wire) == Some(w.core.client))
    && (w.core.connected ==> !w.lost)
  }

  // ----- steps keep it -----

  lemma {:induction false} ReceiveAllHead(browser: Option<View>, wire: seq<Message>, k: nat)
    requires 0 < k <= |wire|
    ensures ReceiveAll(browser, wire[..k]) == ReceiveAll(Receive(browser, wire[0]), wire[1..][..k - 1])
  {
    hide Receive;
    if k == 1 {
      assert wire[..1][..0] == [] && wire[1..][..0] == [];
    } else {
      ReceiveAllHead(browser, wire, k - 1);
      assert wire[..k][..k - 1] == wire[..k - 1] && wire[1..][..k - 1][..k - 2] == wire[1..][..k - 2];
      assert wire[1..][..k - 1][k - 2] == wire[k - 1];
    }
  }

  lemma DeliverKeeps(w: Wired)
    requires WiredInv(w) && w.wire != []
    ensures Receive(w.browser, w.wire[0]).Some? && WiredInv(w.(wire := w.wire[1..], browser := Receive(w.browser, w.wire[0])))
  {
    hide Inv, Receive, Recorded, ReceiveAll;
    var first, rest := Receive(w.browser, w.wire[0]), w.wire[1..];
    FirstReceived(w.browser, w.wire);
    assert Recorded(w.core, ReceiveAll(w.browser, w.wire[..1]).value);
    forall k | 0 < k <= |rest|
      ensures ReceiveAll(first, rest[..k]).Some? && Recorded(w.core, ReceiveAll(first, rest[..k]).value)
    {
      ReceiveAllHead(w.browser, w.wire, k + 1);
    }
    ReceiveAllHead(w.browser, w.wire, |w.wire|);
    assert w.wire[..|w.wire|] == w.wire && rest[..|rest|] == rest;
  }

  lemma FirstReceived(browser: Option<View>, wire: seq<Message>)
    requires wire != []
    ensures ReceiveAll(browser, wire[..1]) == Receive(browser, wire[0])
  {
    assert wire[..1][..0] == [];
  }

  lemma RecordedStays(s: System, t: System, v: View)
    requires Recorded(s, v) && s.history <= t.history && (s.final.Some? ==> t.final == s.final)
    ensures Recorded(t, v)
  {
  }

  lemma AllRecordedStays(s: System, t: System, browser: Option<View>, wire: seq<Message>)
    requires AllRecorded(s, browser, wire) && s.history <= t.history && (s.final.Some? ==> t.final == s.final)
    ensures AllRecorded(t, browser, wire)
  {
    hide Recorded, ReceiveAll;
    if browser.Some? {
      RecordedStays(s, t, browser.value);
    }
    forall k | 0 < k <= |wire|
      ensures Recorded(t, ReceiveAll(browser, wire[..k]).value)
    {
      RecordedStays(s, t, ReceiveAll(browser, wire[..k]).value);
    }
  }

  /** A step records only drafts that are still live, and a stored result stays. */
  lemma NextRecords(s: System, t: System)
    requires Inv(s) && Next(s, t) && Lively(s)
    ensures Lively(t) && (s.final.Some? ==> t.final == s.final)
  {
    hide SetLiveStatus, ApplyLiveEvents, ResetDraft, Finish, Publish, CloseSession, Take, Handle, Resynchronize, Inv, Applicable, Lively;
    if status :| !IsTerminal(status) && t == SetLiveStatus(s, status) {
      StatusRecords(s, status);
    } else if ops :| s.final.None? && s.live.status == Running && Applicable(s.live.blocks != [], ops) && t == ApplyLiveEvents(s, ops) {
      EventsRecord(s, ops);
    } else if s.final.None? && s.live.status == Running && t == ResetDraft(s) {
      ResetRecords(s);
    } else if stored: View :| IsTerminal(stored.status) && t == Finish(s, stored) {
      FinishRecords(s, stored);
    } else {
      OthersRecord(s, t);
    }
  }

  lemma RecordIsLively(s: System, live: Live)
    requires Lively(s) && !IsTerminal(live.status)
    ensures Lively(Record(s, live)) && Record(s, live).final == s.final
  {
    hide ShownBlocks;
  }

  lemma StatusRecords(s: System, status: Status)
    requires Lively(s) && !IsTerminal(status)
    ensures Lively(SetLiveStatus(s, status)) && SetLiveStatus(s, status).final == s.final
  {
    hide Record, Offer;
    RecordIsLively(s, s.live.(status := status, number := s.live.number + 1));
  }

  lemma EventsRecord(s: System, ops: seq<Op>)
    requires Lively(s) && s.final.None? && s.live.status == Running && Applicable(s.live.blocks != [], ops)
    ensures Lively(ApplyLiveEvents(s, ops))
  {
    hide Record, Offer, AddEvents, Applicable;
    RecordIsLively(s, s.live.(blocks := AddEvents(s.live.blocks, ops), number := s.live.number + 1));
  }

  lemma ResetRecords(s: System)
    requires Lively(s) && s.final.None? && s.live.status == Running
    ensures Lively(ResetDraft(s))
  {
    hide Record, Offer;
    RecordIsLively(s, s.live.(blocks := [], number := s.live.number + 1));
  }

  lemma FinishRecords(s: System, stored: View)
    requires Lively(s)
    ensures Lively(Finish(s, stored)) && (s.final.Some? ==> Finish(s, stored).final == s.final)
  {
    hide Offer;
  }

  lemma OthersRecord(s: System, t: System)
    requires Lively(s) && (t == Publish(s, Resync) || t == CloseSession(s) || t == s.(connected := false)
                           || (s.hand.None? && (s.pending.Some? || s.queue != []) && t == Take(s))
                           || (s.hand.Some? && t == Handle(s)) || t == Resynchronize(s))
    ensures Lively(t) && t.final == s.final
  {
    hide Offer, Coalesced, ApplyDelta;
  }

  lemma ReadsIsNext(s: System, t: System)
    requires Reads(s, t)
    ensures Next(s, t)
  {
    hide Handle, Resynchronize, SetLiveStatus, ApplyLiveEvents, ResetDraft, Finish, Publish, CloseSession, Take, Applicable;
  }

  /** A message the reader sends takes the copy before it to the copy after it. */
  lemma SentIsReceived(s: System, t: System)
    requires Inv(s) && Lively(s) && Reads(s, t)
    ensures if t.sent.Nothing? then t.client == s.client else Receive(Some(s.client), t.sent) == Some(t.client) && Recorded(t, t.client)
  {
    hide ApplyOps, Covers, AllFit, ApplyDelta;
    if s.connected && s.hand.Some? && t == Handle(s) {
      if s.hand.value.Delta? && s.hand.value.number == s.last + 1 {
        DeltaFollows(s);
        NumbersAre(s, t.last);
      } else {
        SnapshotIsRecorded(s);
      }
    } else {
      SnapshotIsRecorded(s);
    }
  }

  lemma NumbersAre(s: System, k: nat)
    requires Inv(s) && k < |s.history|
    ensures s.history[k].number == k
  {
  }

  lemma SnapshotIsRecorded(s: System)
    requires Inv(s) && Lively(s)
    ensures Recorded(s, GetSnapshot(s))
  {
  }

  lemma SendKeeps(w: Wired, t: System)
    requires WiredInv(w) && Reads(w.core, t) && !t.sent.Nothing?
    ensures WiredInv(Wired(t, w.wire + [t.sent], w.browser, w.lost))
  {
    hide Inv, Recorded, Receive, ReceiveAll, Next, Reads, Lively;
    ReadsIsNext(w.core, t);
    NextKeeps(w.core, t);
    NextRecords(w.core, t);
    SentIsReceived(w.core, t);
    AllRecordedStays(w.core, t, w.browser, w.wire);
    ReaderIsConnected(w.core, t);
    var wire := w.wire + [t.sent];
    ReceiveAllSnoc(w.browser, w.wire, t.sent);
    forall k | 0 < k <= |wire|
      ensures ReceiveAll(w.browser, wire[..k]).Some? && Recorded(t, ReceiveAll(w.browser, wire[..k]).value)
    {
      if k == |wire| {
        assert wire[..k] == wire;
      } else {
        assert wire[..k] == w.wire[..k];
      }
    }
  }

  lemma ReaderIsConnected(s: System, t: System)
    requires Reads(s, t)
    ensures s.connected
  {
  }

  lemma ReceiveAllSnoc(browser: Option<View>, wire: seq<Message>, m: Message)
    ensures ReceiveAll(browser, wire + [m]) == Receive(ReceiveAll(browser, wire), m)
  {
    assert (wire + [m])[..|wire|] == wire;
  }

  lemma QuietKeeps(w: Wired, t: System)
    requires WiredInv(w) && Next(w.core, t) && t.client == w.core.client
    ensures WiredInv(w.(core := t))
  {
    hide Inv, Recorded, ReceiveAll, Lively;
    NextKeeps(w.core, t);
    NextRecords(w.core, t);
    AllRecordedStays(w.core, t, w.browser, w.wire);
    NeverReconnects(w.core, t);
  }

  lemma NeverReconnects(s: System, t: System)
    requires Next(s, t)
    ensures t.connected ==> s.connected
  {
    hide ApplyOps, Coalesced, ApplyDelta, AddEvents, Applicable, ShownBlocks;
  }

  lemma LoseKeeps(w: Wired, k: nat)
    requires WiredInv(w) && k <= |w.wire|
    ensures WiredInv(Wired(w.core.(connected := false), w.wire[..k], w.browser, true))
  {
    hide Inv, ReceiveAll;
    DisconnectedInv(w.core);
    var wire := w.wire[..k];
    assert forall n :: 0 < n <= k ==> wire[..n] == w.wire[..n];
    AllRecordedStays(w.core, w.core.(connected := false), w.browser, w.wire);
  }

  lemma WiredNextKeeps(w: Wired, x: Wired)
    requires WiredInv(w) && WiredNext(w, x)
    ensures WiredInv(x)
  {
    hide Next, Reads, WiredInv, Receive;
    if Reads(w.core, x.core) && x == Wired(x.core, if x.core.sent.Nothing? then w.wire else w.wire + [x.core.sent], w.browser, w.lost) {
      if x.core.sent.Nothing? {
        SilentRead(w, x.core);
        ReadsIsNext(w.core, x.core);
        QuietKeeps(w, x.core);
      } else {
        SendKeeps(w, x.core);
      }
    } else if Next(w.core, x.core) && x.core.client == w.core.client && x == w.(core := x.core) {
      QuietKeeps(w, x.core);
    } else if w.wire != [] && x == w.(wire := w.wire[1..], browser := Receive(w.browser, w.wire[0])) {
      DeliverKeeps(w);
    } else {
      var k :| 0 <= k <= |w.wire| && x == Wired(w.core.(connected := false), w.wire[..k], w.browser, true);
      LoseKeeps(w, k);
    }
  }

  lemma SilentRead(w: Wired, t: System)
    requires WiredInv(w) && Reads(w.core, t) && t.sent.Nothing?
    ensures t.client == w.core.client
  {
    hide Inv, Recorded, Receive, ReceiveAll, Reads, Lively;
    SentIsReceived(w.core, t);
  }

  lemma WiredInit(w: Wired)
    requires Init(w.core) && (forall k :: 0 <= k < |w.core.history| ==> w.core.history[k].number == k && !IsTerminal(w.core.history[k].status))
    requires w == Wired(w.core, [w.core.sent], None, false)
    ensures WiredInv(w)
  {
    InitInv(w.core);
    var wire := w.wire;
    assert wire[..1] == wire && wire[..0] == [];
    assert ReceiveAll(None, wire) == Some(w.core.client);
  }

  lemma {:induction false} WiredRunKeeps(run: seq<Wired>, i: nat)
    requires WiredRun(run) && i < |run|
    ensures WiredInv(run[i])
  {
    hide WiredInv, WiredNext, Init;
    if i == 0 {
      WiredInit(run[0]);
    } else {
      WiredRunKeeps(run, i - 1);
      assert WiredNext(run[i - 1], run[i - 1 + 1]);
      WiredNextKeeps(run[i - 1], run[i]);
    }
  }

  // ----- what the browser shows -----

  /** In every state of every run the browser shows a recorded view: the draft at its number, or the stored result. */
  lemma BrowserShowsRecord(run: seq<Wired>, i: nat)
    requires WiredRun(run) && i < |run| && run[i].browser.Some?
    ensures Recorded(run[i].core, run[i].browser.value)
    ensures IsTerminal(run[i].browser.value.status) <==> run[i].core.final == Some(run[i].browser.value)
  {
    hide WiredRun, Inv, ReceiveAll;
    WiredRunKeeps(run, i);
    if run[i].core.final.Some? {
      FinalIsTerminal(run[i].core);
    }
  }

  /** No message in flight is refused, at whatever moment it arrives. */
  lemma NoMessageRefused(run: seq<Wired>, i: nat)
    requires WiredRun(run) && i < |run| && run[i].wire != []
    ensures Receive(run[i].browser, run[i].wire[0]).Some?
  {
    hide WiredRun, WiredInv, Receive;
    WiredRunKeeps(run, i);
    DeliverKeeps(run[i]);
  }

  /** If nothing was lost, a browser that received everything shows what the server's reader last sent. */
  lemma DeliveredIsSent(run: seq<Wired>, i: nat)
    requires WiredRun(run) && i < |run| && !run[i].lost && run[i].wire == []
    ensures run[i].browser == Some(run[i].core.client)
  {
    hide WiredRun, Inv, Recorded;
    WiredRunKeeps(run, i);
  }
}
