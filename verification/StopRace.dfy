/**
 A run of the lifecycle in which a finished Stop leaves an active row without an owner in its conversation: a new
 turn slips in between the two transactions of `stop` (src/oveo/generation.py) and loses its own task.
 */
module StopRace {
  import opened GenerationStatus
  import opened Lifecycle

  /** The first turn of a new conversation, with its task running. */
  function Asked(): System {
    System(Db({1}, map[2 := Message(1, 1, true)], map[0 := Row(1, Chat, Running, Some(2), None, None, 3, 0)]), {}, {0}, 4, true)
  }

  function FirstTurn(): seq<System> {
    var start := System(Db({}, map[], map[]), {}, {}, 0, true);
    var reserved := Reserve(start);
    var inserted := InsertTurn(reserved, 0, 1, 1, 0);
    var scheduled := inserted.(tasks := {0});
    var released := scheduled.(starting := {});
    [start, reserved, inserted, scheduled, released, SetRunning(released, 0)]
  }

  /** Stop is requested, and the task ends without a terminal write. */
  function Abandoned(): seq<System> {
    var requested := RequestStop(Asked(), 0);
    [requested, requested.(tasks := {})]
  }

  /** A second turn is inserted, and its task ends without a terminal write too. */
  function Second(s: System): seq<System> {
    var reserved := Reserve(s);
    var inserted := InsertTurn(reserved, 4, 1, 2, 1);
    var scheduled := inserted.(tasks := {4});
    var released := scheduled.(starting := {});
    [reserved, inserted, scheduled, released, released.(tasks := {})]
  }

  function Race(): seq<System> {
    var second := Second(Abandoned()[1]);
    FirstTurn() + Abandoned() + second + [FinishStopped(second[4], 0)]
  }

  // ----- every step is one of the lifecycle -----

  lemma InsertStep(s: System, g: nat, thread: nat, o: nat, key: nat)
    requires CanInsert(s, g, thread, key) && (thread in s.db.threads || thread == s.next) && IsNextOrdinal(s.db.messages, thread, o)
    ensures Next(s, InsertTurn(s, g, thread, o, key))
  {
    hide CanInsert, IsNextOrdinal, InsertTurn;
    assert Submit(s, InsertTurn(s, g, thread, o, key));
  }

  lemma MemoryStep(s: System, g: nat)
    requires s.up
    ensures Next(s, s.(starting := s.starting - {g})) && Next(s, s.(tasks := s.tasks - {g}))
    ensures g in s.starting && g in s.db.rows ==> Next(s, s.(tasks := s.tasks + {g}))
  {
    hide Submit, SubmitHandoff, Retry, RowStep;
  }

  lemma WriteStep(s: System, g: nat)
    requires s.up
    ensures Next(s, RequestStop(s, g))
    ensures g in s.tasks ==> Next(s, SetRunning(s, g))
    ensures !IsLive(s, g) ==> Next(s, FinishStopped(s, g))
  {
    hide Submit, SubmitHandoff, Retry, RequestStop, SetRunning, FinishStopped, IsNextOrdinal;
    assert RowStep(s, RequestStop(s, g));
    assert g in s.tasks ==> RowStep(s, SetRunning(s, g));
    assert !IsLive(s, g) ==> RowStep(s, FinishStopped(s, g));
  }

  ghost predicate Steps(run: seq<System>) {
    forall i :: 0 <= i < |run| - 1 ==> Next(run[i], run[i + 1])
  }

  lemma FirstTurnIsARun()
    ensures Steps(FirstTurn()) && Init(FirstTurn()[0]) && FirstTurn()[5] == Asked()
  {
    hide Next;
    var run := FirstTurn();
    assert run[1] == Reserve(run[0]) && Next(run[0], run[1]) by {
      ReserveStep(run[0]);
    }
    FirstInsert();
    MemoryStep(run[2], 0);
    MemoryStep(run[3], 0);
    WriteStep(run[4], 0);
    assert run[3] == run[2].(tasks := run[2].tasks + {0});
    assert run[4] == run[3].(starting := run[3].starting - {0});
  }

  lemma ReserveStep(s: System)
    requires s.up
    ensures Next(s, Reserve(s))
  {
  }

  lemma FirstInsert()
    ensures Next(FirstTurn()[1], FirstTurn()[2])
    ensures FirstTurn()[2] == System(Asked().db.(rows := map[0 := Asked().db.rows[0].(status := Queued)]), {0}, {}, 4, true)
  {
    hide Next;
    var s := FirstTurn()[1];
    assert FinalizeOrphans(s, 1) == map[];
    InsertStep(s, 0, 1, 1, 0);
  }

  lemma AbandonedIsARun()
    ensures Next(Asked(), Abandoned()[0]) && Steps(Abandoned())
    ensures Abandoned()[1] == System(Asked().db.(rows := map[0 := Asked().db.rows[0].(status := Stopping)]), {}, {}, 4, true)
  {
    hide Next;
    WriteStep(Asked(), 0);
    MemoryStep(Abandoned()[0], 0);
    assert Abandoned()[1] == Abandoned()[0].(tasks := Abandoned()[0].tasks - {0});
  }

  lemma SecondIsARun()
    ensures var s := Abandoned()[1];
            && Next(s, Second(s)[0]) && Steps(Second(s))
            && var last := Second(s)[4];
            && last.up && last.starting == {} && last.tasks == {} && last.db.rows.Keys == {0, 4}
            && last.db.rows[0].status == Stopped && last.db.rows[0].thread == last.db.rows[4].thread == 1 && last.db.rows[4].status == Queued
  {
    hide Next;
    AbandonedIsARun();
    var s := Abandoned()[1];
    var run := Second(s);
    ReserveStep(s);
    assert FinalizeOrphans(run[0], 1) == map[0 := Finalized(s.db.rows[0])];
    SecondOrdinal(run[0]);
    InsertStep(run[0], 4, 1, 2, 1);
    MemoryStep(run[1], 4);
    MemoryStep(run[2], 4);
    MemoryStep(run[3], 4);
    assert run[2] == run[1].(tasks := run[1].tasks + {4});
    assert run[3] == run[2].(starting := run[2].starting - {4});
    assert run[4] == run[3].(tasks := run[3].tasks - {4});
  }

  lemma SecondOrdinal(s: System)
    requires s.db.messages == map[2 := Message(1, 1, true)]
    ensures IsNextOrdinal(s.db.messages, 1, 2)
  {
    assert s.db.messages[2].ordinal == 1;
  }

  /** The law "after a Stop the conversation has no active row without an owner" fails on this run. */
  lemma StopCanLeaveAnOrphan()
    ensures StopsUnowned(Race(), 5, 7, 12, 0)
    ensures var end := Race()[13];
            IsOrphan(end, 4) && end.db.rows[4].thread == end.db.rows[0].thread && !NoOrphan(end, 1)
  {
    hide Next;
    FirstTurnIsARun();
    AbandonedIsARun();
    SecondIsARun();
    var s := Abandoned()[1];
    var second := Second(s);
    WriteStep(second[4], 0);
    hide FirstTurn, Abandoned, Second, FinishStopped;
  }
}
