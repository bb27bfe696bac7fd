/**
 The provider-slot semaphore (`_acquire_provider_slot` and `_call_provider`, src/oveo/generation.py): a task asks
 for a slot, is woken when one is handed to it, takes it for one provider call, and gives it back whatever
 happens to the call, to its asyncio task or to a Stop request meanwhile.
 */
module Slots {
  /**
   `queue`: waiting in order. `woken`: a slot was handed over, the acquire has not resumed. `acquired`: the
   acquire is done, its task has not looked yet. `calling`: a provider call is in flight. `stopped`: Stop was requested.
   */
  datatype State = State(cap: nat, free: nat, queue: seq<nat>, woken: set<nat>, acquired: set<nat>, calling: set<nat>,
                         stopped: set<nat>)

  predicate Involved(s: State, t: nat) {
    t in s.queue || t in s.woken || t in s.acquired || t in s.calling
  }

  /** A slot comes back: the first waiter gets it, or it is free. */
  function Returned(s: State): State {
    if s.queue == [] then s.(free := s.free + 1)
    else s.(queue := s.queue[1..], woken := s.woken + {s.queue[0]})
  }

  function Request(s: State, t: nat): State {
    if s.free > 0 && s.queue == [] then s.(free := s.free - 1, acquired := s.acquired + {t})
    else s.(queue := s.queue + [t])
  }

  function Without(q: seq<nat>, t: nat): (r: seq<nat>)
    ensures forall x :: x in r <==> x in q && x != t
    ensures |r| <= |q|
  {
    if q == [] then []
    else
      var last := q[|q| - 1];
      assert q == q[..|q| - 1] + [last];
      if last == t then Without(q[..|q| - 1], t) else Without(q[..|q| - 1], t) + [last]
  }

  /** The `finally` of `_acquire_provider_slot`: withdraw a pending request, or hand a granted slot back. */
  function GiveUp(s: State, t: nat): State {
    if t in s.acquired then Returned(s.(acquired := s.acquired - {t}))
    else if t in s.woken then Returned(s.(woken := s.woken - {t}))
    else s.(queue := Without(s.queue, t))
  }

  ghost predicate StepOf(s: State, t: nat, u: State) {
    || (!Involved(s, t) && t !in s.stopped && u == Request(s, t))
    || (t in s.woken && u == s.(woken := s.woken - {t}, acquired := s.acquired + {t}))
    || (t in s.acquired && t !in s.stopped && u == s.(acquired := s.acquired - {t}, calling := s.calling + {t}))
    || (t !in s.calling && u == GiveUp(s, t))                      // Stop won, or its task was cancelled
    || (t in s.calling && u == Returned(s.(calling := s.calling - {t})))    // the call ended, failed or was cancelled
    || u == s.(stopped := s.stopped + {t})
  }

  ghost predicate Next(s: State, u: State) {
    exists t :: StepOf(s, t, u)
  }

  ghost predicate IsRun(cap: nat, run: seq<State>) {
    && run != [] && run[0] == State(cap, cap, [], {}, {}, {}, {})
    && forall k :: 0 <= k < |run| - 1 ==> Next(run[k], run[k + 1])
  }

  // ----- the invariant -----

  ghost predicate Apart(s: State) {
    && s.woken !! s.acquired && s.woken !! s.calling && s.acquired !! s.calling
    && (forall t <- s.queue :: t !in s.woken && t !in s.acquired && t !in s.calling)
    && forall i, j :: 0 <= i < j < |s.queue| ==> s.queue[i] != s.queue[j]
  }

  /** Slots held in any form: granted and not yet noticed, noticed, or in use. */
  function Held(s: State): nat {
    |s.woken| + |s.acquired| + |s.calling|
  }

  ghost predicate Inv(cap: nat, s: State) {
    && s.cap == cap && Apart(s)
    && s.free + Held(s) == cap
    && (s.free > 0 ==> s.queue == [])
  }

  lemma ReturnedKeeps(cap: nat, s: State)
    requires s.cap == cap && Apart(s) && s.free + Held(s) + 1 == cap && (s.free > 0 ==> s.queue == [])
    ensures Inv(cap, Returned(s))
  {
    if s.queue != [] {
      assert s.queue[0] in s.queue;
      assert forall t :: t in s.queue[1..] ==> t in s.queue && t != s.queue[0];
    }
  }

  lemma {:induction false} WithoutKeeps(q: seq<nat>, t: nat)
    requires forall i, j :: 0 <= i < j < |q| ==> q[i] != q[j]
    ensures forall i, j :: 0 <= i < j < |Without(q, t)| ==> Without(q, t)[i] != Without(q, t)[j]
  {
    if q != [] {
      var init, last := q[..|q| - 1], q[|q| - 1];
      WithoutKeeps(init, t);
      assert last !in init;
    }
  }

  lemma RequestKeeps(cap: nat, s: State, t: nat)
    requires Inv(cap, s) && !Involved(s, t)
    ensures Inv(cap, Request(s, t))
  {
  }

  lemma GiveUpKeeps(cap: nat, s: State, t: nat)
    requires Inv(cap, s) && t !in s.calling
    ensures Inv(cap, GiveUp(s, t)) && !Involved(GiveUp(s, t), t)
  {
    if t in s.acquired {
      ReturnedKeeps(cap, s.(acquired := s.acquired - {t}));
    } else if t in s.woken {
      ReturnedKeeps(cap, s.(woken := s.woken - {t}));
    } else {
      WithoutKeeps(s.queue, t);
    }
  }

  lemma EndKeeps(cap: nat, s: State, t: nat)
    requires Inv(cap, s) && t in s.calling
    ensures Inv(cap, Returned(s.(calling := s.calling - {t})))
  {
    ReturnedKeeps(cap, s.(calling := s.calling - {t}));
  }

  lemma AdvanceKeeps(cap: nat, s: State, t: nat)
    requires Inv(cap, s)
    ensures t in s.woken ==> Inv(cap, s.(woken := s.woken - {t}, acquired := s.acquired + {t}))
    ensures t in s.acquired ==> Inv(cap, s.(acquired := s.acquired - {t}, calling := s.calling + {t}))
    ensures Inv(cap, s.(stopped := s.stopped + {t}))
  {
  }

  lemma NextKeeps(cap: nat, s: State, u: State)
    requires Inv(cap, s) && Next(s, u)
    ensures Inv(cap, u)
  {
    hide Apart, Request, GiveUp, Returned, Held;
    var t :| StepOf(s, t, u);
    AdvanceKeeps(cap, s, t);
    if !Involved(s, t) && t !in s.stopped && u == Request(s, t) {
      RequestKeeps(cap, s, t);
    } else if t !in s.calling && u == GiveUp(s, t) {
      GiveUpKeeps(cap, s, t);
    } else if t in s.calling && u == Returned(s.(calling := s.calling - {t})) {
      EndKeeps(cap, s, t);
    }
  }

  /**
   Conservation: in every reachable state free and held slots add up to the cap, so at most that many calls are in
   flight, no slot leaks, and no slot is free while a task waits for one.
   */
  lemma {:induction false} SlotsAreConserved(cap: nat, run: seq<State>, k: nat)
    requires IsRun(cap, run) && k < |run|
    ensures Inv(cap, run[k])
    ensures |run[k].calling| <= cap
    ensures run[k].queue == [] && run[k].woken == {} && run[k].acquired == {} && run[k].calling == {} ==> run[k].free == cap
  {
    hide Next;
    if k > 0 {
      SlotsAreConserved(cap, run, k - 1);
      NextKeeps(cap, run[k - 1], run[k]);
    }
  }

  lemma StepStopped(s: State, u: State, t: nat)
    requires Next(s, u) && t in s.stopped
    ensures t in u.stopped && (t in u.calling ==> t in s.calling)
  {
    var x :| StepOf(s, x, u);
  }

  /** A task stopped before its call began never makes it. */
  lemma {:induction false} StoppedNeverCalls(cap: nat, run: seq<State>, j: nat, k: nat, t: nat)
    requires IsRun(cap, run) && j <= k < |run| && t in run[j].stopped && t !in run[j].calling
    ensures t in run[k].stopped && t !in run[k].calling
    decreases k
  {
    hide Next;
    if j < k {
      StoppedNeverCalls(cap, run, j, k - 1, t);
      StepStopped(run[k - 1], run[k], t);
    }
  }

  /** Waiters are served in order: a step removes a task from the queue only from its front, or because it gave up. */
  lemma ServedInOrder(cap: nat, s: State, u: State, t: nat)
    requires Inv(cap, s) && Next(s, u) && t in s.queue && t in u.woken
    ensures s.queue[0] == t
  {
    var x :| StepOf(s, x, u);
    WaitersAreNotWoken(s, t);
    StepWakes(s, x, u, t);
  }

  lemma WaitersAreNotWoken(s: State, t: nat)
    requires Apart(s) && t in s.queue
    ensures t !in s.woken
  {
  }

  /** Only a slot that comes back wakes a task, the first of the queue. */
  lemma StepWakes(s: State, x: nat, u: State, t: nat)
    requires StepOf(s, x, u) && t in u.woken && t !in s.woken
    ensures s.queue != [] && s.queue[0] == t
  {
    hide Without, Returned, Involved;
    Wakes(s.(calling := s.calling - {x}), t);
    Wakes(s.(acquired := s.acquired - {x}), t);
    Wakes(s.(woken := s.woken - {x}), t);
  }

  lemma Wakes(s: State, t: nat)
    ensures t in Returned(s).woken ==> t in s.woken || (s.queue != [] && t == s.queue[0])
  {
  }

  // ----- everyone can be served -----

  /** Steps from the first to the last state of `path`. */
  ghost predicate IsPath(path: seq<State>) {
    path != [] && forall k :: 0 <= k < |path| - 1 ==> Next(path[k], path[k + 1])
  }

  lemma Joins(a: seq<State>, b: seq<State>)
    requires IsPath(a) && IsPath(b) && a[|a| - 1] == b[0]
    ensures IsPath(a + b[1..]) && (a + b[1..])[0] == a[0] && (a + b[1..])[|a + b[1..]| - 1] == b[|b| - 1]
  {
    hide Next;
    var path := a + b[1..];
    forall k | 0 <= k < |path| - 1
      ensures Next(path[k], path[k + 1])
    {
      if k >= |a| - 1 {
        assert path[k] == b[k - |a| + 1] && path[k + 1] == b[k - |a| + 2];
      }
    }
  }

  lemma Taken(s: State, t: nat)
    ensures t in s.woken ==> Next(s, s.(woken := s.woken - {t}, acquired := s.acquired + {t}))
    ensures t in s.acquired && t !in s.stopped ==> Next(s, s.(acquired := s.acquired - {t}, calling := s.calling + {t}))
    ensures t in s.acquired && t in s.stopped && t !in s.calling ==> Next(s, Returned(s.(acquired := s.acquired - {t})))
    ensures t in s.calling ==> Next(s, Returned(s.(calling := s.calling - {t})))
  {
    if t in s.woken {
      assert StepOf(s, t, s.(woken := s.woken - {t}, acquired := s.acquired + {t}));
    }
    if t in s.acquired && t !in s.stopped {
      assert StepOf(s, t, s.(acquired := s.acquired - {t}, calling := s.calling + {t}));
    }
    if t in s.acquired && t in s.stopped && t !in s.calling {
      assert StepOf(s, t, Returned(s.(acquired := s.acquired - {t})));
    }
    if t in s.calling {
      assert StepOf(s, t, Returned(s.(calling := s.calling - {t})));
    }
  }

  /** A holder of a slot goes on to its call's end, or gives up if it was stopped: then the first waiter is woken. */
  lemma HolderReturns(cap: nat, s: State, x: nat) returns (path: seq<State>)
    requires Inv(cap, s) && s.queue != [] && (x in s.woken || x in s.acquired || x in s.calling)
    ensures IsPath(path) && path[0] == s && Inv(cap, path[|path| - 1])
    ensures var u := path[|path| - 1]; u.queue == s.queue[1..] && s.queue[0] in u.woken && u.stopped == s.stopped
    decreases x in s.woken, x in s.acquired
  {
    hide Apart, Held, Returned, Next;
    Taken(s, x);
    AdvanceKeeps(cap, s, x);
    Separate(s, x);
    if x in s.calling {
      var u := Returned(s.(calling := s.calling - {x}));
      EndKeeps(cap, s, x);
      WakesFirst(s.(calling := s.calling - {x}));
      path := [s, u];
    } else if x in s.acquired && x in s.stopped {
      var u := Returned(s.(acquired := s.acquired - {x}));
      GiveUpKeeps(cap, s, x);
      WakesFirst(s.(acquired := s.acquired - {x}));
      path := [s, u];
    } else {
      var u := if x in s.acquired then s.(acquired := s.acquired - {x}, calling := s.calling + {x})
               else s.(woken := s.woken - {x}, acquired := s.acquired + {x});
      var rest := HolderReturns(cap, u, x);
      Joins([s, u], rest);
      path := [s, u] + rest[1..];
    }
  }

  lemma Separate(s: State, x: nat)
    requires Apart(s)
    ensures !(x in s.woken && x in s.acquired) && !(x in s.acquired && x in s.calling) && !(x in s.woken && x in s.calling)
    ensures forall t <- s.queue :: t !in s.acquired && t !in s.woken && t !in s.calling
  {
  }

  lemma WakesFirst(s: State)
    requires s.queue != []
    ensures Returned(s) == s.(queue := s.queue[1..], woken := s.woken + {s.queue[0]})
  {
  }

  /** While a task waits, some slot is held. */
  lemma SomeHolder(cap: nat, s: State) returns (x: nat)
    requires Inv(cap, s) && cap > 0 && s.queue != []
    ensures x in s.woken || x in s.acquired || x in s.calling
  {
    assert |s.woken| > 0 || |s.acquired| > 0 || |s.calling| > 0;
    if |s.woken| > 0 {
      x :| x in s.woken;
    } else if |s.acquired| > 0 {
      x :| x in s.acquired;
    } else {
      x :| x in s.calling;
    }
  }

  /**
   No task starves: from every reachable state, whoever asked for a slot and was not stopped reaches its provider
   call once those before it come to their end.
   */
  lemma {:induction false} WaiterReachesItsCall(cap: nat, s: State, t: nat) returns (path: seq<State>)
    requires Inv(cap, s) && cap > 0 && t !in s.stopped && Involved(s, t)
    ensures IsPath(path) && path[0] == s && t in path[|path| - 1].calling
    decreases |s.queue|, t in s.queue, t in s.woken, t in s.acquired
  {
    hide Apart, Held, Returned, Next;
    Separate(s, t);
    Taken(s, t);
    AdvanceKeeps(cap, s, t);
    if t in s.calling {
      path := [s];
    } else if t in s.acquired || t in s.woken {
      var u := if t in s.acquired then s.(acquired := s.acquired - {t}, calling := s.calling + {t})
               else s.(woken := s.woken - {t}, acquired := s.acquired + {t});
      var rest := WaiterReachesItsCall(cap, u, t);
      Joins([s, u], rest);
      path := [s, u] + rest[1..];
    } else {
      var x := SomeHolder(cap, s);
      var first := HolderReturns(cap, s, x);
      var u := first[|first| - 1];
      assert s.queue == [s.queue[0]] + s.queue[1..];
      var rest := WaiterReachesItsCall(cap, u, t);
      Joins(first, rest);
      path := first + rest[1..];
    }
  }
}
