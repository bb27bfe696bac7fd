/**
 What each transaction of the generation lifecycle (src/oveo/generation.py) writes, said of the tables before and
 after it, and what can always still happen: a turn that a task owns can be answered, and a conversation without an
 owned turn takes a new one.
 */
module LifecycleEffects {
  import opened GenerationStatus
  import opened Lifecycle

  // ----- frames -----

  /** Nothing but row `g` changes, and it becomes `row`. */
  ghost predicate WritesRow(before: Db, after: Db, g: nat, row: Row) {
    && after.threads == before.threads && after.messages == before.messages && after.rows.Keys == before.rows.Keys
    && g in after.rows && after.rows[g] == row && forall h <- before.rows :: h != g ==> after.rows[h] == before.rows[h]
  }

  /** Message `m` is new, and every other message stays. */
  ghost predicate AddsMessage(before: Db, after: Db, m: nat, msg: Message) {
    && m !in before.messages && after.messages.Keys == before.messages.Keys + {m} && after.messages[m] == msg
    && forall k <- before.messages :: after.messages[k] == before.messages[k]
  }

  /** The turn of row `g` is completed by message `m`, which stands directly after its question. */
  ghost predicate Answers(before: Db, after: Db, g: nat, m: nat) {
    && g in before.rows && before.rows[g].source.Some? && before.rows[g].source.value in before.messages
    && var row, question := before.rows[g], before.messages[before.rows[g].source.value];
    && after.threads == before.threads && after.rows.Keys == before.rows.Keys
    && after.rows[g] == row.(status := Completed, result := Some(m))
    && (forall h <- before.rows :: h != g ==> after.rows[h] == before.rows[h])
    && AddsMessage(before, after, m, Message(row.thread, question.ordinal + 1, false))
  }

  /** What a new turn does to the other rows of its conversation: unowned active ones are finished. */
  ghost predicate FinishesOrphans(s: System, thread: nat, after: map<nat, Row>) {
    forall h <- s.db.rows ::
      && h in after
      && var row := s.db.rows[h];
      after[h] ==
      if row.thread != thread || h in s.starting || h in s.tasks then row
      else match row.status
        case Stopping => row.(status := Stopped, error := None)
        case Queued => row.(status := Failed, error := Some("generation_interrupted"))
        case Running => row.(status := Failed, error := Some("generation_interrupted"))
        case _ => row
  }

  /** Row `g` is the only new row. */
  ghost predicate InsertsRow(s: System, t: System, g: nat, row: Row) {
    && g !in s.db.rows && t.db.rows.Keys == s.db.rows.Keys + {g} && t.db.rows[g] == row
    && FinishesOrphans(s, row.thread, t.db.rows)
  }

  // ----- writes of a task -----

  /** Completion: a running chat turn is answered, a running handoff is completed, anything else is left alone. */
  lemma CompletionAnswers(s: System, g: nat, o: nat)
    requires Inv(s)
    requires g in s.db.rows && s.db.rows[g].status.Running? ==> IsNextOrdinal(s.db.messages, s.db.rows[g].thread, o)
    ensures var t := CommitSuccess(s, g, o);
            && t == s.(db := t.db, next := t.next)
            && (g !in s.db.rows || !s.db.rows[g].status.Running? ==> t.db == s.db)
            && (g in s.db.rows && s.db.rows[g].status.Running? && s.db.rows[g].purpose.Chat? ==>
                  t.db.rows[g].result.Some? && Answers(s.db, t.db, g, t.db.rows[g].result.value))
            && (g in s.db.rows && s.db.rows[g].status.Running? && s.db.rows[g].purpose.Handoff? ==>
                  WritesRow(s.db, t.db, g, s.db.rows[g].(status := Completed)))
  {
    hide Refs, OneActive, Contiguous, ActiveIsLast, AnswersFollow, TurnsInOrder, IsNextOrdinal, KeysDistinct;
    if g in s.db.rows && s.db.rows[g].status.Running? && s.db.rows[g].purpose.Chat? {
      Answer(s.db, g, s.next, o);
    }
  }

  /** A queued turn starts, and nothing else does. */
  lemma StartWrites(s: System, g: nat)
    ensures var t := SetRunning(s, g);
            && t == s.(db := t.db)
            && if g in s.db.rows && s.db.rows[g].status.Queued? then WritesRow(s.db, t.db, g, s.db.rows[g].(status := Running)) else t.db == s.db
  {
  }

  /** A failure is recorded with its code, unless a Stop came first; a finished row is left alone. */
  lemma FailureWrites(s: System, g: nat, code: string)
    ensures var t := Fail(s, g, code);
            && t == s.(db := t.db)
            && (g !in s.db.rows || IsTerminal(s.db.rows[g].status) ==> t.db == s.db)
            && (g in s.db.rows && IsActive(s.db.rows[g].status) ==>
                  WritesRow(s.db, t.db, g,
                            if s.db.rows[g].status.Stopping? then s.db.rows[g].(status := Stopped, error := None)
                            else s.db.rows[g].(status := Failed, error := Some(code))))
  {
  }

  /** The two transactions of Stop. */
  lemma StopWrites(s: System, g: nat)
    ensures var t := RequestStop(s, g);
            && t == s.(db := t.db)
            && if g in s.db.rows && (s.db.rows[g].status.Queued? || s.db.rows[g].status.Running?)
               then WritesRow(s.db, t.db, g, s.db.rows[g].(status := Stopping)) else t.db == s.db
    ensures var t := FinishStopped(s, g);
            && t == s.(db := t.db)
            && if g in s.db.rows && IsActive(s.db.rows[g].status)
               then WritesRow(s.db, t.db, g, s.db.rows[g].(status := Stopped, error := None)) else t.db == s.db
  {
  }

  // ----- inserts -----

  lemma OrphansFinished(s: System, thread: nat)
    ensures FinishesOrphans(s, thread, FinalizeOrphans(s, thread))
  {
  }

  /** A new turn: its question after all messages of the conversation, and its queued row. */
  lemma TurnWrites(s: System, t: System) returns (g: nat, m: nat, o: nat, row: Row)
    requires Inv(s) && Submit(s, t)
    ensures g in s.starting && InsertsRow(s, t, g, row) && IsNextOrdinal(s.db.messages, row.thread, o)
    ensures AddsMessage(s.db, t.db, m, Message(row.thread, o, true)) && t.db.threads == s.db.threads + {row.thread}
    ensures row == Row(row.thread, Chat, Queued, Some(m), None, None, row.created, row.key) && t == s.(db := t.db, next := t.next)
    ensures forall h <- s.db.rows :: s.db.rows[h].created < row.created && s.db.rows[h].key != row.key
  {
    hide DbInv, IsNextOrdinal, KeysDistinct, NoActive, FinalizeOrphans, FinishesOrphans;
    var thread, key;
    g, thread, o, key :|
      && CanInsert(s, g, thread, key) && (thread in s.db.threads || thread == s.next)
      && IsNextOrdinal(s.db.messages, thread, o) && t == InsertTurn(s, g, thread, o, key);
    m, row := s.next + 1, t.db.rows[g];
    OrphansFinished(s, thread);
    FinalizedKeys(s, thread);
    StillFinishes(s, thread, FinalizeOrphans(s, thread), t.db.rows);
  }

  lemma FinalizedKeys(s: System, thread: nat)
    ensures FinalizeOrphans(s, thread).Keys == s.db.rows.Keys
  {
  }

  lemma StillFinishes(s: System, thread: nat, rows: map<nat, Row>, after: map<nat, Row>)
    requires FinishesOrphans(s, thread, rows) && forall h <- s.db.rows :: h in after && h in rows && after[h] == rows[h]
    ensures FinishesOrphans(s, thread, after)
  {
  }

  /** A handoff adds one queued row without a question, and no message. */
  lemma HandoffWrites(s: System, t: System) returns (g: nat, row: Row)
    requires Inv(s) && SubmitHandoff(s, t)
    ensures g in s.starting && InsertsRow(s, t, g, row) && row.thread in s.db.threads
    ensures row == Row(row.thread, Handoff, Queued, None, None, None, row.created, row.key)
    ensures t == s.(db := s.db.(rows := t.db.rows), next := t.next)
  {
    hide DbInv, KeysDistinct, KeyUnused, NoActive, FinalizeOrphans, InsertsRow, IdsUsed;
    var thread, key;
    g, thread, key :|
      && CanInsert(s, g, thread, key) && thread in s.db.threads
      && t == InsertGeneration(s, g, Row(thread, Handoff, Queued, None, None, None, s.next, key));
    row := Row(thread, Handoff, Queued, None, None, None, s.next, key);
    InsertedRow(s, t, g, row);
  }

  /** A retry adds one queued row that asks the question of the turn it repeats, and no message. */
  lemma RetryWrites(s: System, t: System) returns (g: nat, row: Row)
    requires Inv(s) && Retry(s, t)
    ensures g in s.starting && InsertsRow(s, t, g, row) && Repeats(s.db, row)
    ensures row == Row(row.thread, Chat, Queued, row.source, None, None, row.created, row.key)
    ensures t == s.(db := s.db.(rows := t.db.rows), next := t.next)
  {
    hide DbInv, KeysDistinct, KeyUnused, NoActive, FinalizeOrphans, InsertsRow, IdsUsed, Repeats;
    var original, key;
    g, original, key :|
      && IsRetryable(s.db, original) && CanInsert(s, g, s.db.rows[original].thread, key)
      && t == InsertGeneration(s, g, Row(s.db.rows[original].thread, Chat, Queued, s.db.rows[original].source, None, None, s.next, key));
    row := Row(s.db.rows[original].thread, Chat, Queued, s.db.rows[original].source, None, None, s.next, key);
    InsertedRow(s, t, g, row);
    RetryRepeats(s.db, original, row);
  }

  /** The turn asks the same question as an earlier failed or stopped turn of the conversation, its newest one. */
  ghost predicate Repeats(db: Db, row: Row) {
    exists h <- db.rows ::
      && db.rows[h].thread == row.thread && db.rows[h].source == row.source && db.rows[h].purpose.Chat?
      && (db.rows[h].status.Failed? || db.rows[h].status.Stopped?)
      && forall k <- db.rows :: db.rows[k].thread == row.thread && db.rows[k].purpose.Chat? ==> db.rows[k].created <= db.rows[h].created
  }

  lemma RetryRepeats(db: Db, original: nat, row: Row)
    requires IsRetryable(db, original) && row.thread == db.rows[original].thread && row.source == db.rows[original].source
    ensures Repeats(db, row)
  {
  }

  lemma InsertedRow(s: System, t: System, g: nat, row: Row)
    requires g !in s.db.rows && t == InsertGeneration(s, g, row)
    ensures InsertsRow(s, t, g, row)
  {
    hide FinalizeOrphans, FinishesOrphans;
    OrphansFinished(s, row.thread);
    FinalizedKeys(s, row.thread);
    StillFinishes(s, row.thread, FinalizeOrphans(s, row.thread), t.db.rows);
  }

  /** Deleting a conversation deletes its messages and rows, and no others. */
  lemma DeleteWrites(s: System, thread: nat)
    ensures var t := DeleteThread(s, thread);
            && t == s.(db := t.db) && t.db.threads == s.db.threads - {thread}
            && (forall m <- s.db.messages :: m in t.db.messages <==> s.db.messages[m].thread != thread)
            && (forall m <- t.db.messages :: m in s.db.messages && t.db.messages[m] == s.db.messages[m])
            && (forall g <- s.db.rows :: g in t.db.rows <==> s.db.rows[g].thread != thread)
            && (forall g <- t.db.rows :: g in s.db.rows && t.db.rows[g] == s.db.rows[g])
  {
  }

  // ----- what can always happen -----

  lemma NextOrdinalOfLast(db: Db, m: nat)
    requires m in db.messages && IsLast(db.messages, m)
    ensures IsNextOrdinal(db.messages, db.messages[m].thread, db.messages[m].ordinal + 1)
  {
  }

  /** A turn whose task lives can be answered: in one step when it runs, in two when it is queued. */
  lemma OwnedTurnCanBeAnswered(s: System, g: nat) returns (t: System, u: System)
    requires Inv(s) && s.up && g in s.tasks && g in s.db.rows && s.db.rows[g].purpose.Chat?
    requires s.db.rows[g].status.Queued? || s.db.rows[g].status.Running?
    ensures Next(s, t) && Next(t, u)
    ensures u.db.rows.Keys == s.db.rows.Keys && u.db.rows[g].status.Completed? && u.db.rows[g].result.Some?
    ensures Answers(t.db, u.db, g, u.db.rows[g].result.value)
    ensures t.db.messages == s.db.messages && t.db.rows[g].source == s.db.rows[g].source
  {
    hide Refs, OneActive, Contiguous, AnswersFollow, TurnsInOrder, KeysDistinct, IsNextOrdinal, Submit, SubmitHandoff, Retry, IsLast;
    t := SetRunning(s, g);
    assert RowStep(s, t);
    assert Next(s, t);
    NextKeeps(s, t);
    StartWrites(s, g);
    ActiveRefs(t.db, g);
    var m := t.db.rows[g].source.value;
    NextOrdinalOfLast(t.db, m);
    u := CommitSuccess(t, g, t.db.messages[m].ordinal + 1);
    assert RowStep(t, u);
    CompletionAnswers(t, g, t.db.messages[m].ordinal + 1);
  }

  lemma ActiveRefs(db: Db, g: nat)
    requires DbInv(db) && g in db.rows && db.rows[g].purpose.Chat? && IsActive(db.rows[g].status)
    ensures db.rows[g].source.Some? && db.rows[g].source.value in db.messages && IsLast(db.messages, db.rows[g].source.value)
    ensures db.messages[db.rows[g].source.value].thread == db.rows[g].thread
  {
    assert RowRefs(db, db.rows[g]);
  }

  lemma {:induction false} LargestOrdinal(messages: map<nat, Message>, thread: nat, among: set<nat>) returns (o: nat)
    requires among <= messages.Keys
    ensures o >= 1 && forall m <- among :: messages[m].thread == thread ==> messages[m].ordinal < o
    ensures o == 1 || exists m <- among :: messages[m].thread == thread && messages[m].ordinal == o - 1
    decreases among
  {
    o := 1;
    if among != {} {
      var m :| m in among;
      o := LargestOrdinal(messages, thread, among - {m});
      if messages[m].thread == thread && messages[m].ordinal >= o {
        o := messages[m].ordinal + 1;
      }
    }
  }

  /**
   A conversation in which nothing owns an active row is never stuck: a request that reserves its id now can insert
   its turn, whatever rows failed writes left behind.
   */
  lemma UnownedConversationTakesTurn(s: System, thread: nat, key: nat) returns (t: System)
    requires Inv(s) && s.up && thread in s.db.threads && KeyUnused(s.db.rows, key)
    requires forall h <- s.db.rows :: s.db.rows[h].thread == thread && IsActive(s.db.rows[h].status) ==> h !in s.starting && h !in s.tasks
    ensures Next(s, Reserve(s)) && Next(Reserve(s), t) && Submit(Reserve(s), t)
    ensures s.next in t.db.rows && t.db.rows[s.next].status.Queued? && t.db.rows[s.next].thread == thread && s.next in t.starting
  {
    hide DbInv, KeysDistinct, NoActive, FinalizeOrphans, KeyUnused, RowStep, SubmitHandoff, Retry;
    var r := Reserve(s);
    InsertIff(r, s.next, thread, key);
    var o := LargestOrdinal(s.db.messages, thread, s.db.messages.Keys);
    t := InsertTurn(r, s.next, thread, o, key);
    assert Submit(r, t);
  }

  /** A conversation takes a new row exactly if no active row of it has an owner. */
  lemma InsertIff(s: System, g: nat, thread: nat, key: nat)
    requires s.up && g in s.starting && g !in s.db.rows && KeyUnused(s.db.rows, key)
    ensures CanInsert(s, g, thread, key) <==>
            forall h <- s.db.rows :: s.db.rows[h].thread == thread && IsActive(s.db.rows[h].status) ==> h !in s.starting && h !in s.tasks
  {
    var rows := FinalizeOrphans(s, thread);
    if !NoActive(rows, thread) {
      var h :| h in rows && rows[h].thread == thread && IsActive(rows[h].status);
      assert h in s.db.rows && IsLive(s, h) && IsActive(s.db.rows[h].status);
    }
    forall h | h in s.db.rows && s.db.rows[h].thread == thread && IsActive(s.db.rows[h].status) && IsLive(s, h)
      ensures !NoActive(rows, thread)
    {
      assert h in rows && rows[h] == s.db.rows[h];
    }
  }

  // ----- what may be retried -----

  /** The newest chat turn of its conversation, failed or stopped for no lasting reason. */
  ghost predicate IsLastFailure(db: Db, g: nat) {
    && g in db.rows && db.rows[g].purpose.Chat? && (db.rows[g].status.Failed? || db.rows[g].status.Stopped?)
    && db.rows[g].error != Some("attachment_unavailable") && db.rows[g].error != Some("context_unavailable")
    && forall h <- db.rows :: db.rows[h].thread == db.rows[g].thread && db.rows[h].purpose.Chat? ==> db.rows[h].created <= db.rows[g].created
  }

  /** The question of row `g` has an answer. */
  ghost predicate IsAnswered(db: Db, g: nat)
    requires g in db.rows
  {
    exists h <- db.rows :: db.rows[h].purpose.Chat? && db.rows[h].source == db.rows[g].source && db.rows[h].status.Completed?
  }

  lemma AnswerIsLater(db: Db, g: nat)
    requires DbInv(db) && IsRetryable(db, g)
    ensures !IsAnswered(db, g)
  {
    hide Contiguous, TurnsInOrder, OneActive, ActiveIsLast;
    assert RowRefs(db, db.rows[g]);
    forall h | h in db.rows && db.rows[h].purpose.Chat? && db.rows[h].source == db.rows[g].source
      ensures !db.rows[h].status.Completed?
    {
      assert RowRefs(db, db.rows[h]);
    }
  }

  lemma LaterAnswer(db: Db, g: nat, m: nat)
    requires DbInv(db) && IsLastFailure(db, g) && db.rows[g].source.Some? && db.rows[g].source.value in db.messages
    requires m in db.messages && db.messages[m].thread == db.rows[g].thread && !db.messages[m].fromUser
    requires db.messages[m].ordinal > db.messages[db.rows[g].source.value].ordinal
    ensures IsAnswered(db, g)
  {
    hide DbInv, Refs, RowRefs, AnswersFollow, Contiguous, TurnsInOrder;
    var h := AnsweringRow(db, m);
    SourceRefs(db, g);
    NewerAsksLater(db, h, g);
    SameMessage(db, db.rows[h].source.value, db.rows[g].source.value);
  }

  /** The completed row that a message answers. */
  lemma AnsweringRow(db: Db, m: nat) returns (h: nat)
    requires DbInv(db) && m in db.messages && !db.messages[m].fromUser
    ensures h in db.rows && db.rows[h].purpose.Chat? && db.rows[h].status.Completed? && db.rows[h].thread == db.messages[m].thread
    ensures db.rows[h].source.Some? && db.rows[h].source.value in db.messages && db.messages[db.rows[h].source.value].thread == db.rows[h].thread
    ensures db.messages[m].ordinal == db.messages[db.rows[h].source.value].ordinal + 1
  {
    hide OneActive, ActiveIsLast, Contiguous, TurnsInOrder;
    assert IsResult(db.rows, m);
    h :| h in db.rows && db.rows[h].result == Some(m);
    assert RowRefs(db, db.rows[h]);
  }

  lemma SourceRefs(db: Db, g: nat)
    requires DbInv(db) && g in db.rows && db.rows[g].purpose.Chat?
    ensures db.rows[g].source.Some? && db.rows[g].source.value in db.messages && db.messages[db.rows[g].source.value].thread == db.rows[g].thread
  {
    hide OneActive, ActiveIsLast, Contiguous, TurnsInOrder, AnswersFollow;
    assert RowRefs(db, db.rows[g]);
  }

  lemma NewerAsksLater(db: Db, h: nat, g: nat)
    requires DbInv(db) && h in db.rows && g in db.rows && db.rows[h].purpose.Chat? && db.rows[g].purpose.Chat?
    requires db.rows[h].thread == db.rows[g].thread && db.rows[h].created <= db.rows[g].created
    ensures db.rows[h].source.Some? && db.rows[h].source.value in db.messages && db.rows[g].source.Some? && db.rows[g].source.value in db.messages
    ensures db.messages[db.rows[h].source.value].ordinal <= db.messages[db.rows[g].source.value].ordinal
  {
    SourceRefs(db, g);
    SourceRefs(db, h);
    hide Refs, OneActive, ActiveIsLast, Contiguous, AnswersFollow;
  }

  lemma SameMessage(db: Db, m: nat, n: nat)
    requires DbInv(db) && m in db.messages && n in db.messages
    requires db.messages[m].thread == db.messages[n].thread && db.messages[m].ordinal == db.messages[n].ordinal
    ensures m == n
  {
    hide Refs, OneActive, ActiveIsLast, TurnsInOrder, AnswersFollow, HasPrevious;
  }

  /** A turn may be retried exactly if it is its conversation's last failure and its question is unanswered. */
  lemma RetryableIff(db: Db, g: nat)
    requires DbInv(db)
    ensures IsRetryable(db, g) <==> IsLastFailure(db, g) && !IsAnswered(db, g)
  {
    hide Contiguous, AnswersFollow, TurnsInOrder, OneActive, ActiveIsLast, DbInv, IsAnswered;
    if IsRetryable(db, g) {
      AnswerIsLater(db, g);
    }
    if IsLastFailure(db, g) && !IsAnswered(db, g) {
      FailureRefs(db, g);
      forall m | m in db.messages && db.messages[m].thread == db.rows[g].thread && !db.messages[m].fromUser
        ensures db.messages[m].ordinal <= db.messages[db.rows[g].source.value].ordinal
      {
        if db.messages[m].ordinal > db.messages[db.rows[g].source.value].ordinal {
          LaterAnswer(db, g, m);
        }
      }
    }
  }

  lemma FailureRefs(db: Db, g: nat)
    requires DbInv(db) && IsLastFailure(db, g)
    ensures db.rows[g].source.Some? && db.rows[g].source.value in db.messages && db.rows[g].result.None?
  {
    assert RowRefs(db, db.rows[g]);
  }
}
