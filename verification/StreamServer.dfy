/**
 The server's side of a live stream as the objects it updates (`_set_live_status`, `_apply_live_events` and
 `_reset_draft_for_retry`, src/oveo/generation.py): the draft and the reader's queue change together, and each
 change is the step that the replication laws are about.
 */
module StreamServer {
  import opened GenerationStatus
  import opened Protocol
  import opened Stream

  /** A draft that is not finished, and the queue of the one reader it publishes to. */
  class Publisher {
    const draft: LiveDraft
    const queue: EventQueue

    constructor ()
      ensures fresh(draft) && fresh(queue) && draft.Value() == Live(Queued, 0, []) && queue.items == []
    {
      draft := new LiveDraft();
      queue := new EventQueue();
    }

    ghost predicate Shows(s: System)
      reads draft, queue
    {
      s.final.None? && draft.Value() == s.live && queue.items == s.queue
    }

    /** `_set_live_status` with a status that is not terminal. */
    method SetLiveStatus(ghost s: System, to: Status)
      requires Shows(s) && !IsTerminal(to)
      modifies draft, queue
      ensures Next(s, Stream.SetLiveStatus(s, to)) && Shows(Stream.SetLiveStatus(s, to))
      ensures draft.status == to && draft.number == old(draft.number) + 1 && draft.blocks == old(draft.blocks)
    {
      draft.status := to;
      draft.number := draft.number + 1;
      queue.Put(Delta(draft.number, [SetStatus(to)]));
    }

    /** `_apply_live_events` */
    method ApplyLiveEvents(ghost s: System, events: seq<Op>)
      requires Shows(s) && draft.status == Running && Applicable(draft.blocks != [], events)
      modifies draft, queue
      ensures Next(s, Stream.ApplyLiveEvents(s, events)) && Shows(Stream.ApplyLiveEvents(s, events))
      ensures draft.blocks == AddEvents(old(draft.blocks), events) && draft.status == Running
      ensures draft.number == old(draft.number) + if events == [] then 0 else 1
    {
      var published := draft.ApplyEvents(events);
      if published.Some? {
        queue.Put(published.value);
      }
    }

    /** `_reset_draft_for_retry`: the draft is emptied under a new number, and the reader told to start over. */
    method ResetDraftForRetry(ghost s: System) returns (done: bool)
      requires Shows(s)
      modifies draft, queue
      ensures done == (old(draft.status) == Running)
      ensures done ==> Next(s, ResetDraft(s)) && Shows(ResetDraft(s))
      ensures done ==> draft.blocks == [] && draft.number == old(draft.number) + 1 && draft.status == Running
      ensures done ==> queue.items != [] && !queue.items[|queue.items| - 1].Delta?
      ensures !done ==> Shows(s)
    {
      done := draft.Reset();
      if done {
        queue.Put(Resync);
      }
    }
  }

  // ----- every step -----

  /** How the recorded draft moves on: a new status, new events on its blocks, or an empty draft after a retry. */
  ghost predicate Revises(v: View, w: View) {
    && w.number == v.number + 1
    && (|| w == View(w.status, v.blocks, w.number)
        || (exists ops: seq<Op> :: ops != [] && (forall i :: 0 <= i < |ops| ==> !ops[i].SetStatus?) && ApplyOps(v, ops) == Some(View(w.status, w.blocks, v.number)))
        || w == View(v.status, [], w.number))
  }

  lemma {:induction false} EventsSetNoStatus(open: bool, ops: seq<Op>)
    requires Applicable(open, ops)
    ensures forall i :: 0 <= i < |ops| ==> !ops[i].SetStatus?
    decreases |ops|
  {
    if ops != [] {
      EventsSetNoStatus(true, ops[1..]);
      forall i | 0 <= i < |ops|
        ensures !ops[i].SetStatus?
      {
        assert i > 0 ==> ops[i] == ops[1..][i - 1];
      }
    }
  }

  lemma StatusRevises(s: System, to: Status)
    requires Inv(s) && s.final.None? && !IsTerminal(to)
    ensures var h := Stream.SetLiveStatus(s, to).history;
            |h| == |s.history| + 1 && Revises(s.history[|s.history| - 1], h[|h| - 1]) && h[|h| - 1].status == to
  {
    hide Covers, ApplyOps, Offer, AllFit;
  }

  lemma EventsRevise(s: System, ops: seq<Op>)
    requires Inv(s) && s.final.None? && Applicable(s.live.blocks != [], ops) && ops != []
    ensures var h := Stream.ApplyLiveEvents(s, ops).history;
            |h| == |s.history| + 1 && Revises(s.history[|s.history| - 1], h[|h| - 1]) && h[|h| - 1].status == s.live.status
  {
    hide Covers, ApplyOps, Offer, AddEvents, AllFit;
    EventsSetNoStatus(s.live.blocks != [], ops);
    DraftMatchesOps(s.live.status, s.live.number, s.live.blocks, ops);
  }

  lemma ResetRevises(s: System)
    requires Inv(s) && s.final.None?
    ensures var h := ResetDraft(s).history;
            |h| == |s.history| + 1 && h[|h| - 1] == View(s.live.status, [], s.live.number + 1)
  {
    hide Covers, ApplyOps, Offer, AllFit;
  }

  /** The record only grows, one revision at a time; nothing but status changes, events and retries revises it. */
  lemma RecordGrows(s: System, t: System)
    requires Inv(s) && Next(s, t)
    ensures t.history == s.history || (|t.history| == |s.history| + 1 && s.history <= t.history && s.history != []
                                       && Revises(s.history[|s.history| - 1], t.history[|s.history|]))
  {
    hide Inv, Stream.SetLiveStatus, Stream.ApplyLiveEvents, ResetDraft, Stream.Finish, Publish, CloseSession, Take, Handle, Resynchronize, Applicable,
         Revises;
    HasRecord(s);
    if to :| !IsTerminal(to) && t == Stream.SetLiveStatus(s, to) {
      FinishedKeepsRecord(s, to);
      if s.final.None? {
        StatusRevises(s, to);
      }
    } else if ops :| s.final.None? && s.live.status == Running && Applicable(s.live.blocks != [], ops) && t == Stream.ApplyLiveEvents(s, ops) {
      if ops == [] {
        NoEvents(s);
      } else {
        EventsRevise(s, ops);
      }
    } else if s.final.None? && s.live.status == Running && t == ResetDraft(s) {
      ResetRevises(s);
      EmptyRevises(s);
    } else {
      OthersKeepRecord(s, t);
    }
  }

  lemma HasRecord(s: System)
    requires Inv(s)
    ensures |s.history| == s.live.number + 1
  {
  }

  lemma FinishedKeepsRecord(s: System, to: Status)
    ensures s.final.Some? ==> Stream.SetLiveStatus(s, to).history == s.history
  {
  }

  lemma NoEvents(s: System)
    requires s.final.None? && Applicable(s.live.blocks != [], [])
    ensures Stream.ApplyLiveEvents(s, []).history == s.history
  {
  }

  lemma EmptyRevises(s: System)
    requires Inv(s) && s.final.None?
    ensures Revises(s.history[|s.history| - 1], View(s.live.status, [], s.live.number + 1))
  {
    hide Covers, ApplyOps, AllFit;
  }

  lemma OthersKeepRecord(s: System, t: System)
    requires Next(s, t)
    requires !(exists to :: !IsTerminal(to) && t == Stream.SetLiveStatus(s, to))
    requires !(exists ops :: s.final.None? && s.live.status == Running && Applicable(s.live.blocks != [], ops) && t == Stream.ApplyLiveEvents(s, ops))
    requires !(s.final.None? && s.live.status == Running && t == ResetDraft(s))
    ensures t.history == s.history
  {
    hide Stream.SetLiveStatus, Stream.ApplyLiveEvents, ResetDraft, Applicable, Handle, Take, Resynchronize, CloseSession, Publish;
  }

  // ----- coalescing -----

  function Joint(items: seq<Item>): seq<Op>
    requires forall i :: 0 <= i < |items| ==> items[i].Delta?
  {
    if items == [] then [] else Joint(items[..|items| - 1]) + items[|items| - 1].ops
  }

  /** The first `n` queued items are deltas that follow each other from `last` on. */
  predicate Follow(last: nat, queue: seq<Item>, n: nat) {
    n <= |queue| && forall i :: 0 <= i < n ==> queue[i].Delta? && queue[i].number == last + 1 + i
  }

  lemma {:induction false} JointHead(items: seq<Item>)
    requires items != [] && forall i :: 0 <= i < |items| ==> items[i].Delta?
    ensures Joint(items) == items[0].ops + Joint(items[1..])
  {
    hide Joint;
    var n := |items| - 1;
    JointLast(items);
    if n == 0 {
      NothingJoint(items[..0]);
      NothingJoint(items[1..]);
      assert [] + items[0].ops == items[0].ops + [];
    } else {
      JointHead(items[..n]);
      JointLast(items[1..]);
      assert items[..n][1..] == items[1..][..n - 1];
      AddedLast(items[0].ops, Joint(items[1..][..n - 1]), items[n].ops);
    }
  }

  lemma JointLast(items: seq<Item>)
    requires items != [] && forall i :: 0 <= i < |items| ==> items[i].Delta?
    ensures Joint(items) == Joint(items[..|items| - 1]) + items[|items| - 1].ops
  {
  }

  lemma NothingJoint(items: seq<Item>)
    requires items == []
    ensures Joint(items) == []
  {
  }

  lemma AddedLast(a: seq<Op>, b: seq<Op>, c: seq<Op>)
    ensures (a + b) + c == a + (b + c)
  {
  }

  /** One message takes every queued delta that follows without a gap; the first other item is handled next. */
  lemma {:induction false} CoalescesAll(ops: seq<Op>, last: nat, queue: seq<Item>) returns (n: nat)
    ensures Follow(last, queue, n) && (n < |queue| ==> !(queue[n].Delta? && queue[n].number == last + 1 + n))
    ensures Coalesced(ops, last, queue) ==
            (ops + Joint(queue[..n]), last + n, if n < |queue| then Some(queue[n]) else None, if n < |queue| then queue[n + 1..] else [])
    decreases |queue|
  {
    n := 0;
    if queue != [] && queue[0].Delta? && queue[0].number == last + 1 {
      var m := CoalescesAll(ops + queue[0].ops, last + 1, queue[1..]);
      n := m + 1;
      assert forall i :: 1 <= i < n ==> queue[i] == queue[1..][i - 1];
      assert forall i :: 0 <= i < m ==> queue[1..][..m][i] == queue[1..][i] && queue[1..][i].Delta?;
      JointHead(queue[..n]);
      assert queue[..n][1..] == queue[1..][..m];
      AddedLast(ops, queue[0].ops, Joint(queue[1..][..m]));
    } else {
      assert queue[..0] == [] && ops + [] == ops;
    }
  }
}
