/**
 The life of generation rows (src/oveo/generation.py): requests, tasks, Stop, retries, failed writes and
 restarts interleave, and every database transaction is one atomic step.

 `starting` and `tasks` are the in-memory sets that say which rows a live request or task owns. Identifiers
 and creation times come from one counter, `next`, so both are fresh and strictly increasing.
 */
module Lifecycle {
  import opened GenerationStatus

  datatype Purpose = Chat | Handoff

  datatype Message = Message(thread: nat, ordinal: nat, fromUser: bool)

  datatype Row = Row(
    thread: nat, purpose: Purpose, status: Status,
    source: Option<nat>, result: Option<nat>, error: Option<string>,
    created: nat, key: nat)

  datatype Db = Db(threads: set<nat>, messages: map<nat, Message>, rows: map<nat, Row>)

  datatype System = System(db: Db, starting: set<nat>, tasks: set<nat>, next: nat, up: bool)

  const NOT_RETRYABLE: set<string> := {"attachment_unavailable", "context_unavailable"}

  // ----- single transitions -----

  /** `_is_live` */
  predicate IsLive(s: System, g: nat) {
    g in s.starting || g in s.tasks
  }

  /** `_transition`: a compare-and-set that leaves the error code alone. */
  function Move(rows: map<nat, Row>, g: nat, allowed: set<Status>, to: Status): map<nat, Row> {
    if g in rows && rows[g].status in allowed then rows[g := rows[g].(status := to)] else rows
  }

  function MoveWith(rows: map<nat, Row>, g: nat, allowed: set<Status>, to: Status, error: Option<string>): map<nat, Row> {
    if g in rows && rows[g].status in allowed then rows[g := rows[g].(status := to, error := error)] else rows
  }

  const ACTIVE: set<Status> := {Queued, Running, Stopping}

  /** `_finalize_orphans` on one row. */
  function Finalized(row: Row): Row {
    if row.status.Stopping? then row.(status := Stopped, error := None)
    else if row.status.Queued? || row.status.Running? then row.(status := Failed, error := Some("generation_interrupted"))
    else row
  }

  function FinalizeOrphans(s: System, thread: nat): map<nat, Row> {
    map g | g in s.db.rows :: if s.db.rows[g].thread == thread && !IsLive(s, g) then Finalized(s.db.rows[g]) else s.db.rows[g]
  }

  /** The three updates of `reconcile_orphans`, in order. */
  function CompleteAnswered(rows: map<nat, Row>): map<nat, Row> {
    map g | g in rows :: if rows[g].result.Some? && !rows[g].status.Completed? then rows[g].(status := Completed, error := None) else rows[g]
  }

  function StopStopping(rows: map<nat, Row>): map<nat, Row> {
    map g | g in rows :: if rows[g].status.Stopping? then rows[g].(status := Stopped, error := None) else rows[g]
  }

  function FailInterrupted(rows: map<nat, Row>): map<nat, Row> {
    map g | g in rows :: if rows[g].status.Queued? || rows[g].status.Running?
                         then rows[g].(status := Failed, error := Some("restart_interrupted")) else rows[g]
  }

  function Reconciled(rows: map<nat, Row>): map<nat, Row> {
    FailInterrupted(StopStopping(CompleteAnswered(rows)))
  }

  /** The unique index: no active row in the thread. */
  ghost predicate NoActive(rows: map<nat, Row>, thread: nat) {
    forall g :: g in rows && rows[g].thread == thread ==> !IsActive(rows[g].status)
  }

  /** `coalesce(max(ordinal), 0) + 1` over the messages of a thread. */
  ghost predicate IsNextOrdinal(messages: map<nat, Message>, thread: nat, o: nat) {
    && o >= 1
    && (forall m :: m in messages && messages[m].thread == thread ==> messages[m].ordinal < o)
    && (o == 1 || exists m :: m in messages && messages[m].thread == thread && messages[m].ordinal == o - 1)
  }

  ghost predicate KeyUnused(rows: map<nat, Row>, key: nat) {
    forall g :: g in rows ==> rows[g].key != key
  }

  /** `_is_retryable`: the latest chat turn, failed or stopped, that no assistant message follows. */
  ghost predicate IsRetryable(db: Db, g: nat) {
    && g in db.rows
    && var row := db.rows[g];
    && row.purpose.Chat? && (row.status.Failed? || row.status.Stopped?)
    && (row.error.Some? ==> row.error.value !in NOT_RETRYABLE)
    && row.result.None? && row.source.Some?
    && (forall h :: h in db.rows && db.rows[h].thread == row.thread && db.rows[h].purpose.Chat? ==> db.rows[h].created <= row.created)
    && row.source.value in db.messages
    && (forall m :: m in db.messages && db.messages[m].thread == row.thread && !db.messages[m].fromUser
          ==> db.messages[m].ordinal <= db.messages[row.source.value].ordinal)
  }

  // ----- the steps -----

  /** A request reserves its generation id before its transaction. */
  function Reserve(s: System): System {
    s.(starting := s.starting + {s.next}, next := s.next + 1)
  }

  /** A new chat turn: the user message and its queued row, in one transaction. */
  function InsertTurn(s: System, g: nat, thread: nat, o: nat, key: nat): System {
    var m, created := s.next + 1, s.next + 2;
    var row := Row(thread, Chat, Queued, Some(m), None, None, created, key);
    s.(db := Db(s.db.threads + {thread}, s.db.messages[m := Message(thread, o, true)], FinalizeOrphans(s, thread)[g := row]),
       next := s.next + 3)
  }

  ghost predicate CanInsert(s: System, g: nat, thread: nat, key: nat) {
    && s.up && g in s.starting && g !in s.db.rows && KeyUnused(s.db.rows, key)
    && NoActive(FinalizeOrphans(s, thread), thread)
  }

  ghost predicate Submit(s: System, t: System) {
    exists g, thread, o, key ::
      && CanInsert(s, g, thread, key)
      && (thread in s.db.threads || thread == s.next)
      && IsNextOrdinal(s.db.messages, thread, o)
      && t == InsertTurn(s, g, thread, o, key)
  }

  function InsertGeneration(s: System, g: nat, row: Row): System {
    s.(db := s.db.(rows := FinalizeOrphans(s, row.thread)[g := row]), next := s.next + 1)
  }

  ghost predicate SubmitHandoff(s: System, t: System) {
    exists g, thread, key ::
      && CanInsert(s, g, thread, key) && thread in s.db.threads
      && t == InsertGeneration(s, g, Row(thread, Handoff, Queued, None, None, None, s.next, key))
  }

  ghost predicate Retry(s: System, t: System) {
    exists g, original, key ::
      && IsRetryable(s.db, original)
      && CanInsert(s, g, s.db.rows[original].thread, key)
      && t == InsertGeneration(s, g, Row(s.db.rows[original].thread, Chat, Queued, s.db.rows[original].source, None, None, s.next, key))
  }

  function SetRows(s: System, rows: map<nat, Row>): System {
    s.(db := s.db.(rows := rows))
  }

  function SetRunning(s: System, g: nat): System {
    SetRows(s, Move(s.db.rows, g, {Queued}, Running))
  }

  /** `_commit_success_once`: the completion claim and, for a chat turn, its answer. */
  function CommitSuccess(s: System, g: nat, o: nat): System {
    if g !in s.db.rows || !s.db.rows[g].status.Running? then s
    else if s.db.rows[g].purpose.Handoff? then SetRows(s, Move(s.db.rows, g, {Running}, Completed))
    else
      var row := s.db.rows[g];
      var m := s.next;
      s.(db := Db(s.db.threads, s.db.messages[m := Message(row.thread, o, false)],
                  s.db.rows[g := row.(status := Completed, result := Some(m))]),
         next := s.next + 1)
  }

  /** `_fail`: a pending Stop wins over a late failure. */
  function Fail(s: System, g: nat, code: string): System {
    SetRows(s, if g in s.db.rows && s.db.rows[g].status.Stopping?
               then MoveWith(s.db.rows, g, {Stopping}, Stopped, None)
               else MoveWith(s.db.rows, g, {Queued, Running}, Failed, Some(code)))
  }

  function FinishStopped(s: System, g: nat): System {
    SetRows(s, MoveWith(s.db.rows, g, ACTIVE, Stopped, None))
  }

  function RequestStop(s: System, g: nat): System {
    SetRows(s, Move(s.db.rows, g, {Queued, Running}, Stopping))
  }

  /** Deleting a conversation deletes its messages and rows. */
  function DeleteThread(s: System, thread: nat): System {
    s.(db := Db(s.db.threads - {thread},
                map m | m in s.db.messages && s.db.messages[m].thread != thread :: s.db.messages[m],
                map g | g in s.db.rows && s.db.rows[g].thread != thread :: s.db.rows[g]))
  }

  /** The process dies: only the database survives. */
  function Crash(s: System): System {
    s.(starting := {}, tasks := {}, up := false)
  }

  function Startup(s: System): System {
    SetRows(s, Reconciled(s.db.rows)).(up := true)
  }

  /** What a live task, a Stop or a late cleanup does to one row. */
  ghost predicate RowStep(s: System, t: System) {
    || (exists g :: g in s.tasks && t == SetRunning(s, g))
    || (exists g, o :: g in s.tasks && g in s.db.rows && IsNextOrdinal(s.db.messages, s.db.rows[g].thread, o) && t == CommitSuccess(s, g, o))
    || (exists g, code :: g in s.tasks && t == Fail(s, g, code))
    || (exists g :: (g in s.tasks || !IsLive(s, g)) && t == FinishStopped(s, g))
    || (exists g :: t == RequestStop(s, g))
  }

  ghost predicate Next(s: System, t: System) {
    || (s.up && t == Reserve(s))
    || Submit(s, t) || SubmitHandoff(s, t) || Retry(s, t)
    || (exists g :: s.up && g in s.starting && g in s.db.rows && t == s.(tasks := s.tasks + {g}))
    || (exists g :: s.up && t == s.(starting := s.starting - {g}))
    || (exists g :: s.up && t == s.(tasks := s.tasks - {g}))
    || (s.up && RowStep(s, t))
    || (exists thread :: s.up && t == DeleteThread(s, thread))
    || t == Crash(s)
    || (!s.up && t == Startup(s))
  }

  ghost predicate Init(s: System) {
    s == System(Db({}, map[], map[]), {}, {}, s.next, true)
  }

  // ----- the invariant -----

  ghost predicate IdsUsed(s: System) {
    && (forall g :: g in s.db.rows ==> g < s.next && s.db.rows[g].created < s.next)
    && (forall m :: m in s.db.messages ==> m < s.next)
    && (forall x :: x in s.db.threads ==> x < s.next)
    && (forall g :: g in s.starting || g in s.tasks ==> g < s.next)
  }

  ghost predicate RowRefs(db: Db, row: Row) {
    && row.thread in db.threads
    && (row.purpose.Handoff? ==> row.source.None? && row.result.None?)
    && (row.purpose.Chat? ==>
          && row.source.Some? && row.source.value in db.messages
          && db.messages[row.source.value].fromUser && db.messages[row.source.value].thread == row.thread
          && (row.result.Some? <==> row.status.Completed?))
    && (row.result.Some? ==>
          && row.result.value in db.messages
          && !db.messages[row.result.value].fromUser && db.messages[row.result.value].thread == row.thread)
  }

  ghost predicate Refs(db: Db) {
    && (forall g :: g in db.rows ==> RowRefs(db, db.rows[g]))
    && (forall m :: m in db.messages ==> db.messages[m].thread in db.threads && db.messages[m].ordinal >= 1)
  }

  /** At most one active row per thread. */
  ghost predicate OneActive(rows: map<nat, Row>) {
    forall g, h :: g in rows && h in rows && g != h && rows[g].thread == rows[h].thread ==>
                     !(IsActive(rows[g].status) && IsActive(rows[h].status))
  }

  /** Ordinals of a thread are distinct and leave no gap. */
  ghost predicate Contiguous(messages: map<nat, Message>) {
    && (forall m, n ::
          m in messages && n in messages && messages[m].thread == messages[n].thread && messages[m].ordinal == messages[n].ordinal
          ==> m == n)
    && (forall m :: m in messages && messages[m].ordinal > 1 ==> HasPrevious(messages, messages[m]))
  }

  ghost predicate HasPrevious(messages: map<nat, Message>, msg: Message) {
    exists n :: n in messages && messages[n].thread == msg.thread && messages[n].ordinal == msg.ordinal - 1
  }

  ghost predicate IsLast(messages: map<nat, Message>, m: nat)
    requires m in messages
  {
    forall n :: n in messages && messages[n].thread == messages[m].thread ==> messages[n].ordinal <= messages[m].ordinal
  }

  /** While a chat turn is active its question is the last message. */
  ghost predicate ActiveIsLast(db: Db)
    requires Refs(db)
  {
    forall g :: g in db.rows && db.rows[g].purpose.Chat? && IsActive(db.rows[g].status) ==> IsLast(db.messages, db.rows[g].source.value)
  }

  /** An answer follows its question directly, and belongs to one row. */
  ghost predicate AnswersFollow(db: Db)
    requires Refs(db)
  {
    && (forall g :: g in db.rows && db.rows[g].result.Some? && db.rows[g].source.Some? ==>
          db.messages[db.rows[g].result.value].ordinal == db.messages[db.rows[g].source.value].ordinal + 1)
    && (forall g, h :: g in db.rows && h in db.rows && db.rows[g].result.Some? && db.rows[g].result == db.rows[h].result ==> g == h)
    && (forall m :: m in db.messages && !db.messages[m].fromUser ==> IsResult(db.rows, m))
  }

  ghost predicate IsResult(rows: map<nat, Row>, m: nat) {
    exists g :: g in rows && rows[g].result == Some(m)
  }

  ghost predicate IsAsked(rows: map<nat, Row>, m: nat) {
    exists g :: g in rows && rows[g].purpose.Chat? && rows[g].source == Some(m)
  }

  /** Every question has a chat row, and later rows never answer earlier questions. */
  ghost predicate TurnsInOrder(db: Db)
    requires Refs(db)
  {
    && (forall m :: m in db.messages && db.messages[m].fromUser ==> IsAsked(db.rows, m))
    && (forall g, h ::
          (g in db.rows && h in db.rows && db.rows[g].purpose.Chat? && db.rows[h].purpose.Chat?
           && db.rows[g].thread == db.rows[h].thread && db.rows[g].created <= db.rows[h].created)
          ==> db.messages[db.rows[g].source.value].ordinal <= db.messages[db.rows[h].source.value].ordinal)
  }

  ghost predicate DbInv(db: Db) {
    Refs(db) && OneActive(db.rows) && Contiguous(db.messages) && ActiveIsLast(db) && AnswersFollow(db) && TurnsInOrder(db)
  }

  ghost predicate KeysDistinct(rows: map<nat, Row>) {
    forall g, h :: g in rows && h in rows && rows[g].key == rows[h].key ==> g == h
  }

  ghost predicate Inv(s: System) {
    IdsUsed(s) && DbInv(s.db) && KeysDistinct(s.db.rows) && (!s.up ==> s.starting == {} && s.tasks == {})
  }

  // ----- relabelling rows -----

  /** Only the status and error code change; nothing becomes active, and no chat row completes or reopens. */
  predicate Relabel(a: Row, b: Row) {
    && b == a.(status := b.status, error := b.error)
    && (IsActive(b.status) ==> IsActive(a.status))
    && (a.purpose.Chat? ==> (b.status.Completed? <==> a.status.Completed?))
  }

  ghost predicate Relabelled(rows: map<nat, Row>, rows': map<nat, Row>) {
    rows'.Keys == rows.Keys && forall g :: g in rows ==> Relabel(rows[g], rows'[g])
  }

  lemma RelabelRefs(db: Db, rows: map<nat, Row>)
    requires Refs(db) && Relabelled(db.rows, rows)
    ensures Refs(db.(rows := rows))
  {
    forall g | g in rows
      ensures RowRefs(db.(rows := rows), rows[g])
    {
      assert g in db.rows && RowRefs(db, db.rows[g]) && Relabel(db.rows[g], rows[g]);
    }
  }

  lemma RelabelKeeps(db: Db, rows: map<nat, Row>)
    requires DbInv(db) && Relabelled(db.rows, rows)
    ensures DbInv(db.(rows := rows))
  {
    hide Contiguous, RowRefs;
    var t := db.(rows := rows);
    RelabelRefs(db, rows);
    assert forall g :: g in rows ==> g in db.rows && Relabel(db.rows[g], rows[g]);
    assert forall g :: g in db.rows ==> g in rows && Relabel(db.rows[g], rows[g]);
    RelabelRest(db, t);
  }

  lemma RelabelRest(db: Db, t: Db)
    requires DbInv(db) && Refs(t) && t.threads == db.threads && t.messages == db.messages
    requires t.rows.Keys == db.rows.Keys && forall g :: g in db.rows ==> Relabel(db.rows[g], t.rows[g])
    ensures OneActive(t.rows) && ActiveIsLast(t) && AnswersFollow(t) && TurnsInOrder(t)
  {
    hide Contiguous, RowRefs, IsLast, IsResult, IsAsked;
    forall m
      ensures IsResult(db.rows, m) ==> IsResult(t.rows, m)
      ensures IsAsked(db.rows, m) ==> IsAsked(t.rows, m)
    {
      SameSources(db.rows, t.rows, m);
    }
  }

  /** Rows keep what they ask and what answered them. */
  lemma SameSources(rows: map<nat, Row>, rows': map<nat, Row>, m: nat)
    requires forall g :: g in rows ==> g in rows' && rows'[g].purpose == rows[g].purpose && rows'[g].source == rows[g].source
    requires forall g :: g in rows && rows[g].result.Some? ==> rows'[g].result == rows[g].result
    ensures IsResult(rows, m) ==> IsResult(rows', m)
    ensures IsAsked(rows, m) ==> IsAsked(rows', m)
  {
    if IsResult(rows, m) {
      var g :| g in rows && rows[g].result == Some(m);
      assert g in rows' && rows'[g].result == Some(m);
    }
    if IsAsked(rows, m) {
      var g :| g in rows && rows[g].purpose.Chat? && rows[g].source == Some(m);
      assert g in rows' && rows'[g].purpose.Chat? && rows'[g].source == Some(m);
    }
  }

  lemma FinalizeRelabels(s: System, thread: nat)
    ensures Relabelled(s.db.rows, FinalizeOrphans(s, thread))
  {
  }

  // ----- adding a row, a turn or an answer -----

  /** `t` is `db` with row `g` new or changed and message `m` possibly new. */
  ghost predicate Extends(db: Db, t: Db, g: nat, m: nat) {
    && g in t.rows && t.rows.Keys == db.rows.Keys + {g}
    && (forall h :: h in db.rows && h != g ==> t.rows[h] == db.rows[h])
    && (forall k :: k in db.messages ==> k in t.messages && t.messages[k] == db.messages[k])
    && (forall k :: k in t.messages && k != m ==> k in db.messages)
    && (g in db.rows ==> t.rows[g].thread == db.rows[g].thread && t.rows[g].purpose == db.rows[g].purpose
                         && t.rows[g].source == db.rows[g].source && t.rows[g].created == db.rows[g].created && db.rows[g].result.None?)
    && (m in t.messages && m !in db.messages ==> t.messages[m].thread == t.rows[g].thread)
  }

  lemma ExtendRefs(db: Db, t: Db, g: nat, m: nat)
    requires Refs(db) && Extends(db, t, g, m) && RowRefs(t, t.rows[g]) && db.threads <= t.threads
    requires m in t.messages ==> t.messages[m].ordinal >= 1
    ensures Refs(t)
  {
    forall h | h in t.rows
      ensures RowRefs(t, t.rows[h])
    {
      assert h == g || (h in db.rows && RowRefs(db, db.rows[h]));
    }
    forall k | k in t.messages
      ensures t.messages[k].thread in t.threads && t.messages[k].ordinal >= 1
    {
    }
  }

  /** No other row of the thread is active. */
  ghost predicate Alone(rows: map<nat, Row>, g: nat, thread: nat) {
    forall h :: h in rows && h != g && rows[h].thread == thread ==> !IsActive(rows[h].status)
  }

  lemma ExtendActive(db: Db, t: Db, g: nat, m: nat)
    requires Refs(db) && Refs(t) && OneActive(db.rows) && ActiveIsLast(db) && Extends(db, t, g, m)
    requires Alone(db.rows, g, t.rows[g].thread)
    requires t.rows[g].purpose.Chat? && IsActive(t.rows[g].status) ==> IsLast(t.messages, t.rows[g].source.value)
    ensures OneActive(t.rows) && ActiveIsLast(t)
  {
    forall h | h in t.rows && h != g && t.rows[h].purpose.Chat? && IsActive(t.rows[h].status)
      ensures IsLast(t.messages, t.rows[h].source.value)
    {
      assert h in db.rows && RowRefs(db, db.rows[h]) && IsLast(db.messages, db.rows[h].source.value);
    }
  }

  lemma ExtendResults(db: Db, t: Db, g: nat, m: nat)
    requires Refs(db) && Refs(t) && AnswersFollow(db) && Extends(db, t, g, m)
    requires t.rows[g].result.None? || (t.rows[g].result == Some(m) && m !in db.messages)
    requires t.rows[g].result.Some? && t.rows[g].source.Some? ==>
               t.messages[m].ordinal == t.messages[t.rows[g].source.value].ordinal + 1
    ensures forall h :: h in t.rows && t.rows[h].result.Some? && t.rows[h].source.Some? ==>
              t.messages[t.rows[h].result.value].ordinal == t.messages[t.rows[h].source.value].ordinal + 1
    ensures forall h, k :: h in t.rows && k in t.rows && t.rows[h].result.Some? && t.rows[h].result == t.rows[k].result ==> h == k
  {
    hide IsResult;
    assert forall h :: h in db.rows ==> RowRefs(db, db.rows[h]);
    assert forall h :: h in t.rows && h != g ==> h in db.rows && t.rows[h] == db.rows[h];
  }

  lemma ExtendAnswers(db: Db, t: Db, g: nat, m: nat)
    requires Refs(db) && Refs(t) && AnswersFollow(db) && Extends(db, t, g, m)
    requires t.rows[g].result.None? || (t.rows[g].result == Some(m) && m !in db.messages)
    requires m in t.messages && m !in db.messages && !t.messages[m].fromUser ==> t.rows[g].result == Some(m)
    requires t.rows[g].result.Some? && t.rows[g].source.Some? ==>
               t.messages[m].ordinal == t.messages[t.rows[g].source.value].ordinal + 1
    ensures AnswersFollow(t)
  {
    hide IsResult, RowRefs;
    ExtendResults(db, t, g, m);
    forall k | k in t.messages && !t.messages[k].fromUser
      ensures IsResult(t.rows, k)
    {
      if k in db.messages {
        SameSources(db.rows, t.rows, k);
      } else {
        ResultOf(t.rows, g, k);
      }
    }
  }

  lemma ResultOf(rows: map<nat, Row>, g: nat, m: nat)
    requires g in rows
    ensures rows[g].result == Some(m) ==> IsResult(rows, m)
    ensures rows[g].purpose.Chat? && rows[g].source == Some(m) ==> IsAsked(rows, m)
  {
  }

  lemma ExtendTurns(db: Db, t: Db, g: nat, m: nat)
    requires Refs(db) && Refs(t) && TurnsInOrder(db) && Extends(db, t, g, m)
    requires g !in db.rows ==>
               && (forall h :: h in db.rows ==> db.rows[h].created < t.rows[g].created)
               && (t.rows[g].purpose.Chat? ==> IsLast(t.messages, t.rows[g].source.value))
    requires m in t.messages && m !in db.messages && t.messages[m].fromUser ==> t.rows[g].purpose.Chat? && t.rows[g].source == Some(m)
    ensures TurnsInOrder(t)
  {
    hide IsAsked;
    assert forall h :: h in db.rows ==> RowRefs(db, db.rows[h]);
    assert forall h :: h in t.rows ==> RowRefs(t, t.rows[h]);
    hide Refs;
    forall k | k in t.messages && t.messages[k].fromUser
      ensures IsAsked(t.rows, k)
    {
      if k in db.messages {
        SameSources(db.rows, t.rows, k);
      } else {
        ResultOf(t.rows, g, k);
      }
    }
  }

  lemma Extended(db: Db, t: Db, g: nat, m: nat)
    requires DbInv(db) && Extends(db, t, g, m) && RowRefs(t, t.rows[g]) && db.threads <= t.threads
    requires m in t.messages ==> t.messages[m].ordinal >= 1
    requires Contiguous(t.messages) && Alone(db.rows, g, t.rows[g].thread)
    requires t.rows[g].purpose.Chat? && (IsActive(t.rows[g].status) || g !in db.rows) ==> IsLast(t.messages, t.rows[g].source.value)
    requires t.rows[g].result.None? || (t.rows[g].result == Some(m) && m !in db.messages)
    requires m in t.messages && m !in db.messages && !t.messages[m].fromUser ==> t.rows[g].result == Some(m)
    requires t.rows[g].result.Some? && t.rows[g].source.Some? ==>
               t.messages[m].ordinal == t.messages[t.rows[g].source.value].ordinal + 1
    requires g !in db.rows ==> forall h :: h in db.rows ==> db.rows[h].created < t.rows[g].created
    requires m in t.messages && m !in db.messages && t.messages[m].fromUser ==> t.rows[g].purpose.Chat? && t.rows[g].source == Some(m)
    ensures DbInv(t)
  {
    hide Contiguous, AnswersFollow, TurnsInOrder, OneActive, ActiveIsLast, IsLast, Extends, Alone;
    ExtendsRow(db, t, g, m);
    ExtendRefs(db, t, g, m);
    ExtendActive(db, t, g, m);
    ExtendAnswers(db, t, g, m);
    ExtendTurns(db, t, g, m);
  }

  lemma ExtendsRow(db: Db, t: Db, g: nat, m: nat)
    requires Extends(db, t, g, m)
    ensures g in t.rows
  {
  }

  /** A queued row joins a thread that has no active row; a chat row answers the last message. */
  lemma AddRow(db: Db, g: nat, row: Row, unused: nat)
    requires unused !in db.messages
    requires DbInv(db) && g !in db.rows && NoActive(db.rows, row.thread)
    requires RowRefs(db, row) && row.status == Queued && row.result.None?
    requires row.purpose.Chat? ==> IsLast(db.messages, row.source.value)
    requires forall h :: h in db.rows ==> db.rows[h].created < row.created
    ensures DbInv(db.(rows := db.rows[g := row]))
  {
    hide DbInv, Contiguous, IsLast;
    var t := db.(rows := db.rows[g := row]);
    ContiguousOf(db);
    Extended(db, t, g, unused);
  }

  lemma ContiguousOf(db: Db)
    requires DbInv(db)
    ensures Contiguous(db.messages) && Refs(db)
  {
  }

  /** A new turn: the user message and its row together. */
  lemma AddTurn(db: Db, g: nat, row: Row, m: nat, o: nat)
    requires DbInv(db) && g !in db.rows && NoActive(db.rows, row.thread) && m !in db.messages
    requires IsNextOrdinal(db.messages, row.thread, o)
    requires row.purpose.Chat? && row.status == Queued && row.result.None? && row.source == Some(m)
    requires forall h :: h in db.rows ==> db.rows[h].created < row.created
    ensures DbInv(Db(db.threads + {row.thread}, db.messages[m := Message(row.thread, o, true)], db.rows[g := row]))
  {
    hide DbInv, Contiguous;
    var t := Db(db.threads + {row.thread}, db.messages[m := Message(row.thread, o, true)], db.rows[g := row]);
    ContiguousOf(db);
    NewOrdinal(db.messages, m, Message(row.thread, o, true));
    assert IsLast(t.messages, m);
    Extended(db, t, g, m);
  }

  lemma NewOrdinal(messages: map<nat, Message>, m: nat, msg: Message)
    requires Contiguous(messages) && m !in messages && IsNextOrdinal(messages, msg.thread, msg.ordinal)
    ensures Contiguous(messages[m := msg])
  {
    hide HasPrevious;
    var all := messages[m := msg];
    forall k | k in all && all[k].ordinal > 1
      ensures HasPrevious(all, all[k])
    {
      if k == m {
        var n :| n in messages && messages[n].thread == msg.thread && messages[n].ordinal == msg.ordinal - 1;
        StillPrevious(messages, all, n, msg);
      } else {
        PreviousStays(messages, all, all[k]);
      }
    }
  }

  lemma StillPrevious(messages: map<nat, Message>, all: map<nat, Message>, n: nat, msg: Message)
    requires n in messages && n in all && all[n] == messages[n]
    requires messages[n].thread == msg.thread && messages[n].ordinal == msg.ordinal - 1
    ensures HasPrevious(all, msg)
  {
  }

  lemma PreviousStays(messages: map<nat, Message>, all: map<nat, Message>, msg: Message)
    requires HasPrevious(messages, msg) && forall k :: k in messages ==> k in all && all[k] == messages[k]
    ensures HasPrevious(all, msg)
  {
    var n :| n in messages && messages[n].thread == msg.thread && messages[n].ordinal == msg.ordinal - 1;
    assert n in all;
  }

  /** The answer of a running turn lands directly after its question. */
  lemma Answer(db: Db, g: nat, m: nat, o: nat)
    requires DbInv(db) && g in db.rows && db.rows[g].purpose.Chat? && db.rows[g].status.Running? && m !in db.messages
    requires IsNextOrdinal(db.messages, db.rows[g].thread, o)
    ensures db.rows[g].source.Some? && db.rows[g].source.value in db.messages
    ensures o == db.messages[db.rows[g].source.value].ordinal + 1
    ensures DbInv(Db(db.threads, db.messages[m := Message(db.rows[g].thread, o, false)],
                     db.rows[g := db.rows[g].(status := Completed, result := Some(m))]))
  {
    hide Contiguous, AnswersFollow, TurnsInOrder;
    var row := db.rows[g];
    assert RowRefs(db, row);
    assert IsLast(db.messages, row.source.value);
    var t := Db(db.threads, db.messages[m := Message(row.thread, o, false)], db.rows[g := row.(status := Completed, result := Some(m))]);
    NewOrdinal(db.messages, m, Message(row.thread, o, false));
    hide DbInv;
    Extended(db, t, g, m);
  }

  /** The answer's id is new and its ordinal follows the question's. */
  lemma AnswerFollows(s: System, g: nat, o: nat)
    requires Inv(s) && g in s.db.rows && s.db.rows[g].purpose.Chat? && s.db.rows[g].status.Running?
    requires IsNextOrdinal(s.db.messages, s.db.rows[g].thread, o)
    ensures s.next !in s.db.messages && s.db.rows[g].source.Some? && s.db.rows[g].source.value in s.db.messages
    ensures o == s.db.messages[s.db.rows[g].source.value].ordinal + 1
  {
    hide DbInv, IsNextOrdinal;
    Answer(s.db, g, s.next, o);
  }

  /** The retried turn is the last message of its thread. */
  lemma RetriedIsLast(db: Db, g: nat)
    requires DbInv(db) && IsRetryable(db, g)
    ensures RowRefs(db, db.rows[g]) && IsLast(db.messages, db.rows[g].source.value)
  {
    hide Contiguous, AnswersFollow, OneActive, ActiveIsLast;
    var row := db.rows[g];
    assert RowRefs(db, row);
    var source := row.source.value;
    forall m | m in db.messages && db.messages[m].thread == row.thread
      ensures db.messages[m].ordinal <= db.messages[source].ordinal
    {
      if db.messages[m].fromUser {
        assert IsAsked(db.rows, m);
        var h :| h in db.rows && db.rows[h].purpose.Chat? && db.rows[h].source == Some(m);
        assert RowRefs(db, db.rows[h]);
      }
    }
  }

  // ----- every step keeps the invariant -----

  lemma MoveRelabels(rows: map<nat, Row>, g: nat, allowed: set<Status>, to: Status, error: Option<string>)
    requires allowed <= ACTIVE
    requires to.Completed? ==> g in rows ==> rows[g].purpose.Handoff?
    ensures Relabelled(rows, Move(rows, g, allowed, to))
    ensures Relabelled(rows, MoveWith(rows, g, allowed, to, error))
  {
  }

  lemma RowsKeep(s: System, rows: map<nat, Row>)
    requires Inv(s) && Relabelled(s.db.rows, rows)
    ensures Inv(SetRows(s, rows))
  {
    hide DbInv;
    RelabelKeeps(s.db, rows);
    assert forall g :: g in rows ==> g in s.db.rows && Relabel(s.db.rows[g], rows[g]);
  }

  /** Nothing this code wrote is changed by the "answered" update of `reconcile_orphans`. */
  lemma AnsweredUpdateIsIdle(s: System)
    requires Inv(s)
    ensures CompleteAnswered(s.db.rows) == s.db.rows
  {
    hide Contiguous, AnswersFollow, TurnsInOrder, ActiveIsLast, OneActive;
    forall g | g in s.db.rows
      ensures CompleteAnswered(s.db.rows)[g] == s.db.rows[g]
    {
      assert RowRefs(s.db, s.db.rows[g]);
    }
  }

  lemma ReconcileRelabels(rows: map<nat, Row>)
    ensures Relabelled(rows, FailInterrupted(StopStopping(rows)))
    ensures forall g :: g in rows ==> !IsActive(FailInterrupted(StopStopping(rows))[g].status)
  {
  }

  lemma StartupKeeps(s: System)
    requires Inv(s)
    ensures Inv(Startup(s))
  {
    hide DbInv;
    AnsweredUpdateIsIdle(s);
    ReconcileRelabels(s.db.rows);
    RowsKeep(s, Reconciled(s.db.rows));
  }

  lemma RowStepKeeps(s: System, t: System)
    requires Inv(s) && s.up && RowStep(s, t)
    ensures Inv(t)
  {
    hide DbInv, Relabelled, IsNextOrdinal;
    var rows := s.db.rows;
    if g :| g in s.tasks && t == SetRunning(s, g) {
      MoveRelabels(rows, g, {Queued}, Running, None);
      RowsKeep(s, t.db.rows);
    } else if g, o :| g in s.tasks && g in rows && IsNextOrdinal(s.db.messages, rows[g].thread, o) && t == CommitSuccess(s, g, o) {
      CommitKeeps(s, g, o);
    } else if g, code :| g in s.tasks && t == Fail(s, g, code) {
      MoveRelabels(rows, g, {Stopping}, Stopped, None);
      MoveRelabels(rows, g, {Queued, Running}, Failed, Some(code));
      RowsKeep(s, t.db.rows);
    } else if g :| (g in s.tasks || !IsLive(s, g)) && t == FinishStopped(s, g) {
      MoveRelabels(rows, g, ACTIVE, Stopped, None);
      RowsKeep(s, t.db.rows);
    } else {
      var g :| t == RequestStop(s, g);
      MoveRelabels(rows, g, {Queued, Running}, Stopping, None);
      RowsKeep(s, t.db.rows);
    }
  }

  lemma CommitKeeps(s: System, g: nat, o: nat)
    requires Inv(s) && g in s.db.rows && IsNextOrdinal(s.db.messages, s.db.rows[g].thread, o)
    ensures Inv(CommitSuccess(s, g, o))
  {
    hide DbInv, Relabelled, IsNextOrdinal;
    var row := s.db.rows[g];
    if row.status.Running? {
      if row.purpose.Handoff? {
        MoveRelabels(s.db.rows, g, {Running}, Completed, None);
        RowsKeep(s, Move(s.db.rows, g, {Running}, Completed));
      } else {
        Answer(s.db, g, s.next, o);
      }
    }
  }

  lemma FinalizeKeeps(s: System, thread: nat)
    requires Inv(s)
    ensures Inv(SetRows(s, FinalizeOrphans(s, thread)))
    ensures FinalizeOrphans(s, thread).Keys == s.db.rows.Keys
    ensures forall g :: g in s.db.rows ==> FinalizeOrphans(s, thread)[g].key == s.db.rows[g].key && FinalizeOrphans(s, thread)[g].created == s.db.rows[g].created
  {
    hide DbInv;
    FinalizeRelabels(s, thread);
    RowsKeep(s, FinalizeOrphans(s, thread));
  }

  lemma SubmitKeeps(s: System, g: nat, thread: nat, o: nat, key: nat)
    requires Inv(s) && CanInsert(s, g, thread, key) && (thread in s.db.threads || thread == s.next)
    requires IsNextOrdinal(s.db.messages, thread, o)
    ensures Inv(InsertTurn(s, g, thread, o, key))
  {
    hide DbInv, IsNextOrdinal, FinalizeOrphans, NoActive;
    FinalizeKeeps(s, thread);
    var rows := FinalizeOrphans(s, thread);
    var row := Row(thread, Chat, Queued, Some(s.next + 1), None, None, s.next + 2, key);
    AddTurn(s.db.(rows := rows), g, row, s.next + 1, o);
  }

  lemma InsertKeeps(s: System, g: nat, row: Row)
    requires Inv(s) && CanInsert(s, g, row.thread, row.key)
    requires RowRefs(s.db, row) && row.status == Queued && row.result.None? && row.created == s.next
    requires row.purpose.Chat? ==> IsLast(s.db.messages, row.source.value)
    ensures Inv(InsertGeneration(s, g, row))
  {
    hide DbInv, FinalizeOrphans, NoActive, IsLast;
    FinalizeKeeps(s, row.thread);
    AddRow(s.db.(rows := FinalizeOrphans(s, row.thread)), g, row, s.next);
  }

  lemma DeleteKeeps(s: System, thread: nat)
    requires Inv(s)
    ensures Inv(DeleteThread(s, thread))
  {
    hide Contiguous, AnswersFollow, TurnsInOrder, ActiveIsLast, OneActive, RowRefs;
    var db, t := s.db, DeleteThread(s, thread).db;
    DeleteRefs(db, t, thread);
    DeleteMessages(db, t, thread);
    DeleteRows(db, t, thread);
  }

  lemma DeleteRefs(db: Db, t: Db, thread: nat)
    requires Refs(db) && t.threads == db.threads - {thread}
    requires t.messages == map m | m in db.messages && db.messages[m].thread != thread :: db.messages[m]
    requires t.rows == map g | g in db.rows && db.rows[g].thread != thread :: db.rows[g]
    ensures Refs(t)
  {
    forall g | g in t.rows
      ensures RowRefs(t, t.rows[g])
    {
      assert RowRefs(db, db.rows[g]);
    }
  }

  lemma DeleteMessages(db: Db, t: Db, thread: nat)
    requires Contiguous(db.messages)
    requires t.messages == map m | m in db.messages && db.messages[m].thread != thread :: db.messages[m]
    ensures Contiguous(t.messages)
  {
    forall m | m in t.messages && t.messages[m].ordinal > 1
      ensures HasPrevious(t.messages, t.messages[m])
    {
      assert HasPrevious(db.messages, db.messages[m]);
      var n :| n in db.messages && db.messages[n].thread == db.messages[m].thread && db.messages[n].ordinal == db.messages[m].ordinal - 1;
      assert n in t.messages;
    }
  }

  lemma DeleteRows(db: Db, t: Db, thread: nat)
    requires DbInv(db) && Refs(t)
    requires t.messages == map m | m in db.messages && db.messages[m].thread != thread :: db.messages[m]
    requires t.rows == map g | g in db.rows && db.rows[g].thread != thread :: db.rows[g]
    ensures OneActive(t.rows) && ActiveIsLast(t) && AnswersFollow(t) && TurnsInOrder(t)
  {
    hide Contiguous, IsResult, IsAsked;
    assert forall g :: g in db.rows ==> RowRefs(db, db.rows[g]);
    forall m | m in t.messages
      ensures IsResult(db.rows, m) ==> IsResult(t.rows, m)
      ensures IsAsked(db.rows, m) ==> IsAsked(t.rows, m)
    {
      DeleteKeepsSources(db, t, thread, m);
    }
  }

  lemma DeleteKeepsSources(db: Db, t: Db, thread: nat, m: nat)
    requires Refs(db) && m in db.messages && db.messages[m].thread != thread
    requires t.rows == map g | g in db.rows && db.rows[g].thread != thread :: db.rows[g]
    ensures IsResult(db.rows, m) ==> IsResult(t.rows, m)
    ensures IsAsked(db.rows, m) ==> IsAsked(t.rows, m)
  {
    if IsResult(db.rows, m) {
      var g :| g in db.rows && db.rows[g].result == Some(m);
      assert RowRefs(db, db.rows[g]);
      assert g in t.rows && t.rows[g].result == Some(m);
    }
    if IsAsked(db.rows, m) {
      var g :| g in db.rows && db.rows[g].purpose.Chat? && db.rows[g].source == Some(m);
      assert RowRefs(db, db.rows[g]);
      assert g in t.rows && t.rows[g].purpose.Chat? && t.rows[g].source == Some(m);
    }
  }

  lemma InsertStepKeeps(s: System, t: System)
    requires Inv(s) && (Submit(s, t) || SubmitHandoff(s, t) || Retry(s, t))
    ensures Inv(t)
  {
    hide Inv, CanInsert, IsNextOrdinal, InsertTurn, InsertGeneration;
    if Submit(s, t) {
      var g, thread, o, key :|
        CanInsert(s, g, thread, key) && (thread in s.db.threads || thread == s.next) && IsNextOrdinal(s.db.messages, thread, o)
        && t == InsertTurn(s, g, thread, o, key);
      SubmitKeeps(s, g, thread, o, key);
    } else if SubmitHandoff(s, t) {
      var g, thread, key :|
        CanInsert(s, g, thread, key) && thread in s.db.threads
        && t == InsertGeneration(s, g, Row(thread, Handoff, Queued, None, None, None, s.next, key));
      InsertKeeps(s, g, Row(thread, Handoff, Queued, None, None, None, s.next, key));
    } else {
      var g, original, key :|
        IsRetryable(s.db, original) && CanInsert(s, g, s.db.rows[original].thread, key)
        && t == InsertGeneration(s, g, Row(s.db.rows[original].thread, Chat, Queued, s.db.rows[original].source, None, None, s.next, key));
      RetryKeeps(s, g, original, key);
    }
  }

  lemma RetryKeeps(s: System, g: nat, original: nat, key: nat)
    requires Inv(s) && IsRetryable(s.db, original) && CanInsert(s, g, s.db.rows[original].thread, key)
    ensures Inv(InsertGeneration(s, g, Row(s.db.rows[original].thread, Chat, Queued, s.db.rows[original].source, None, None, s.next, key)))
  {
    hide DbInv, CanInsert, IsLast;
    RetriedIsLast(s.db, original);
    InsertKeeps(s, g, Row(s.db.rows[original].thread, Chat, Queued, s.db.rows[original].source, None, None, s.next, key));
  }

  lemma MemoryKeeps(s: System, starting: set<nat>, tasks: set<nat>, next: nat, up: bool)
    requires Inv(s) && next >= s.next && (forall g :: g in starting || g in tasks ==> g < next)
    requires !up ==> starting == {} && tasks == {}
    ensures Inv(System(s.db, starting, tasks, next, up))
  {
    hide DbInv;
  }

  lemma NextKeeps(s: System, t: System)
    requires Inv(s) && Next(s, t)
    ensures Inv(t)
  {
    hide DbInv, Submit, SubmitHandoff, Retry, RowStep, DeleteThread, Startup, KeysDistinct;
    if Submit(s, t) || SubmitHandoff(s, t) || Retry(s, t) {
      InsertStepKeeps(s, t);
    } else if s.up && RowStep(s, t) {
      RowStepKeeps(s, t);
    } else if thread :| s.up && t == DeleteThread(s, thread) {
      DeleteKeeps(s, thread);
    } else if !s.up && t == Startup(s) {
      StartupKeeps(s);
    } else {
      assert t.db == s.db;
      MemoryKeeps(s, t.starting, t.tasks, t.next, t.up);
    }
  }

  // ----- whole runs -----

  ghost predicate IsRun(run: seq<System>) {
    run != [] && Init(run[0]) && forall i :: 0 <= i < |run| - 1 ==> Next(run[i], run[i + 1])
  }

  lemma {:induction false} RunKeeps(run: seq<System>, i: nat)
    requires IsRun(run) && i < |run|
    ensures Inv(run[i])
  {
    hide Next, DbInv;
    if i == 0 {
      InitInv(run[0]);
    } else {
      RunKeeps(run, i - 1);
      assert Next(run[i - 1], run[i - 1 + 1]);
      NextKeeps(run[i - 1], run[i]);
    }
  }

  lemma InitInv(s: System)
    requires Init(s)
    ensures Inv(s)
  {
  }

  // ----- Stop, complete, crash -----

  /** How one step may change one row. */
  predicate RowMay(a: Row, b: Row) {
    && b.thread == a.thread && b.purpose == a.purpose && b.source == a.source && b.key == a.key && b.created == a.created
    && (IsTerminal(a.status) ==> b == a)
    && (a.status.Stopping? ==> (b.status.Stopping? || b.status.Stopped?) && b.result == a.result)
  }

  /** Every step changes a row only as allowed; a row can also disappear with its conversation. */
  lemma StepChangesRow(s: System, t: System, g: nat)
    requires Inv(s) && Next(s, t) && g in s.db.rows && g in t.db.rows
    ensures RowMay(s.db.rows[g], t.db.rows[g])
  {
    hide DbInv, IdsUsed, KeysDistinct, Submit, SubmitHandoff, Retry, RowStep, Startup;
    if Submit(s, t) || SubmitHandoff(s, t) || Retry(s, t) {
      InsertChangesRow(s, t, g);
    } else if !s.up && t == Startup(s) {
      StartupChangesRow(s, g);
    } else if s.up && RowStep(s, t) {
      RowStepChangesRow(s, t, g);
    }
  }

  lemma InsertChangesRow(s: System, t: System, g: nat)
    requires Submit(s, t) || SubmitHandoff(s, t) || Retry(s, t)
    requires g in s.db.rows && g in t.db.rows
    ensures RowMay(s.db.rows[g], t.db.rows[g])
  {
    hide IsNextOrdinal, IsRetryable, NoActive, KeyUnused;
    assert t.db.rows[g] == s.db.rows[g] || t.db.rows[g] == Finalized(s.db.rows[g]);
  }

  lemma StartupChangesRow(s: System, g: nat)
    requires Inv(s) && g in s.db.rows
    ensures g in Startup(s).db.rows && RowMay(s.db.rows[g], Startup(s).db.rows[g])
  {
    hide Inv;
    AnsweredUpdateIsIdle(s);
  }

  lemma RowStepChangesRow(s: System, t: System, g: nat)
    requires Inv(s) && RowStep(s, t) && g in s.db.rows && g in t.db.rows
    ensures RowMay(s.db.rows[g], t.db.rows[g])
  {
    hide Inv, IsNextOrdinal, Move, MoveWith, RowMay;
    var rows := s.db.rows;
    if x :| x in s.tasks && t == SetRunning(s, x) {
      MoveMay(rows, x, {Queued}, Running, None, g);
    } else if x, o :| x in s.tasks && x in rows && IsNextOrdinal(s.db.messages, rows[x].thread, o) && t == CommitSuccess(s, x, o) {
      CommitMay(s, x, o, g);
    } else if x, code :| x in s.tasks && t == Fail(s, x, code) {
      MoveMay(rows, x, {Stopping}, Stopped, None, g);
      MoveMay(rows, x, {Queued, Running}, Failed, Some(code), g);
    } else if x :| (x in s.tasks || !IsLive(s, x)) && t == FinishStopped(s, x) {
      MoveMay(rows, x, ACTIVE, Stopped, None, g);
    } else {
      var x :| t == RequestStop(s, x);
      MoveMay(rows, x, {Queued, Running}, Stopping, None, g);
    }
  }

  lemma MoveMay(rows: map<nat, Row>, x: nat, allowed: set<Status>, to: Status, error: Option<string>, g: nat)
    requires g in rows && allowed <= ACTIVE && (Stopping in allowed ==> to.Stopped?)
    ensures RowMay(rows[g], Move(rows, x, allowed, to)[g]) && RowMay(rows[g], MoveWith(rows, x, allowed, to, error)[g])
  {
  }

  lemma CommitMay(s: System, x: nat, o: nat, g: nat)
    requires x in s.db.rows && g in s.db.rows
    ensures RowMay(s.db.rows[g], CommitSuccess(s, x, o).db.rows[g])
  {
  }

  /** A terminal row never changes again. */
  lemma {:induction false} TerminalStays(run: seq<System>, i: nat, j: nat, g: nat)
    requires IsRun(run) && i <= j < |run| && g in run[i].db.rows && IsTerminal(run[i].db.rows[g].status)
    requires forall k :: i <= k <= j ==> g in run[k].db.rows
    ensures run[j].db.rows[g] == run[i].db.rows[g]
    decreases j
  {
    hide Next, Inv, Init;
    if i < j {
      TerminalStays(run, i, j - 1, g);
      RunKeeps(run, j - 1);
      assert Next(run[j - 1], run[j - 1 + 1]);
      StepChangesRow(run[j - 1], run[j], g);
    }
  }

  /** Once Stop's compare-and-set has won, the generation ends stopped and never gets an answer. */
  lemma {:induction false} StopWins(run: seq<System>, i: nat, j: nat, g: nat)
    requires IsRun(run) && i <= j < |run| && g in run[i].db.rows && run[i].db.rows[g].status.Stopping?
    requires forall k :: i <= k <= j ==> g in run[k].db.rows
    ensures var row := run[j].db.rows[g]; (row.status.Stopping? || row.status.Stopped?) && row.result.None?
    decreases j
  {
    hide Next, Inv, Init;
    if i < j {
      StopWins(run, i, j - 1, g);
      RunKeeps(run, j - 1);
      assert Next(run[j - 1], run[j - 1 + 1]);
      StepChangesRow(run[j - 1], run[j], g);
    } else {
      RunKeeps(run, i);
      ResultIffCompleted(run[i], g);
    }
  }

  /** A row has a result message exactly when it is a completed chat turn. */
  lemma ResultIffCompleted(s: System, g: nat)
    requires Inv(s) && g in s.db.rows
    ensures s.db.rows[g].result.Some? <==> s.db.rows[g].purpose.Chat? && s.db.rows[g].status.Completed?
  {
    hide Contiguous, AnswersFollow, TurnsInOrder, ActiveIsLast, OneActive;
    assert RowRefs(s.db, s.db.rows[g]);
  }

  lemma ResultsOfRuns(run: seq<System>, i: nat, g: nat)
    requires IsRun(run) && i < |run| && g in run[i].db.rows
    ensures run[i].db.rows[g].result.Some? <==> run[i].db.rows[g].purpose.Chat? && run[i].db.rows[g].status.Completed?
    ensures CompleteAnswered(run[i].db.rows) == run[i].db.rows
  {
    hide Next, Inv, Init;
    RunKeeps(run, i);
    ResultIffCompleted(run[i], g);
    AnsweredUpdateIsIdle(run[i]);
  }

  /** No row is active; a pending Stop became stopped, unfinished work a failure, and nothing else changed. */
  ghost predicate FinishedAll(before: Db, after: Db) {
    && after.threads == before.threads && after.messages == before.messages && after.rows.Keys == before.rows.Keys
    && forall g <- before.rows ::
         && !IsActive(after.rows[g].status)
         && (IsTerminal(before.rows[g].status) ==> after.rows[g] == before.rows[g])
         && (before.rows[g].status.Stopping? ==> after.rows[g] == before.rows[g].(status := Stopped, error := None))
         && (before.rows[g].status.Queued? || before.rows[g].status.Running? ==>
               after.rows[g] == before.rows[g].(status := Failed, error := Some("restart_interrupted")))
  }

  /** After startup every row is finished, and no finished row was touched. */
  lemma StartupFinishesAll(s: System)
    requires Inv(s)
    ensures FinishedAll(s.db, Startup(s).db)
  {
    hide Inv;
    AnsweredUpdateIsIdle(s);
  }

  // ----- one answer per turn -----

  /** A question is answered at most once, and its answer is the next message of its conversation. */
  lemma OneAnswer(run: seq<System>, i: nat, g: nat, h: nat)
    requires IsRun(run) && i < |run| && g in run[i].db.rows && h in run[i].db.rows
    requires var rows := run[i].db.rows;
             rows[g].purpose.Chat? && rows[g].status.Completed? && rows[h].purpose.Chat? && rows[h].status.Completed? && rows[g].source == rows[h].source
    ensures g == h
    ensures var db, row := run[i].db, run[i].db.rows[g];
            && row.source.Some? && row.result.Some? && row.source.value in db.messages && row.result.value in db.messages
            && db.messages[row.source.value].fromUser && !db.messages[row.result.value].fromUser
            && db.messages[row.result.value].thread == db.messages[row.source.value].thread
            && db.messages[row.result.value].ordinal == db.messages[row.source.value].ordinal + 1
  {
    hide Next, Init, IsResult, TurnsInOrder, HasPrevious;
    RunKeeps(run, i);
    var db := run[i].db;
    assert RowRefs(db, db.rows[g]) && RowRefs(db, db.rows[h]);
  }

  /** Ordinals of a conversation are exactly 1, 2, ..., each used once. */
  lemma {:induction false} OrdinalsContiguous(run: seq<System>, i: nat, m: nat, k: nat)
    requires IsRun(run) && i < |run| && m in run[i].db.messages && 1 <= k <= run[i].db.messages[m].ordinal
    ensures exists n :: n in run[i].db.messages && run[i].db.messages[n].thread == run[i].db.messages[m].thread && run[i].db.messages[n].ordinal == k
    ensures var messages := run[i].db.messages;
            forall n :: n in messages && messages[n].thread == messages[m].thread && messages[n].ordinal == messages[m].ordinal ==> n == m
    decreases run[i].db.messages[m].ordinal - k
  {
    hide Next, Init, RowRefs, AnswersFollow, TurnsInOrder, ActiveIsLast, OneActive;
    RunKeeps(run, i);
    var messages := run[i].db.messages;
    if k < messages[m].ordinal {
      assert HasPrevious(messages, messages[m]);
      var p :| p in messages && messages[p].thread == messages[m].thread && messages[p].ordinal == messages[m].ordinal - 1;
      OrdinalsContiguous(run, i, p, k);
    }
  }

  // ----- ownership of active rows -----

  /** A write by the task of row `g`, or a Stop request for it. */
  ghost predicate OwnStep(s: System, t: System, g: nat) {
    || t == RequestStop(s, g)
    || (g in s.tasks && (t == SetRunning(s, g) || t == FinishStopped(s, g)))
    || (g in s.tasks && exists o :: t == CommitSuccess(s, g, o))
    || (g in s.tasks && exists code :: t == Fail(s, g, code))
  }

  /** A row that a live request or task owns changes only by its own task or a Stop request. */
  lemma OwnedRowsUntouched(s: System, t: System, g: nat)
    requires Inv(s) && Next(s, t) && g in s.db.rows && g in t.db.rows && IsLive(s, g)
    ensures t.db.rows[g] == s.db.rows[g] || OwnStep(s, t, g)
  {
    hide DbInv, IdsUsed, KeysDistinct, Submit, SubmitHandoff, Retry, RowStep, OwnStep;
    if Submit(s, t) || SubmitHandoff(s, t) || Retry(s, t) {
      InsertSparesOwned(s, t, g);
    } else if s.up && RowStep(s, t) {
      RowStepSparesOwned(s, t, g);
    }
  }

  lemma InsertSparesOwned(s: System, t: System, g: nat)
    requires (Submit(s, t) || SubmitHandoff(s, t) || Retry(s, t)) && g in s.db.rows && IsLive(s, g)
    ensures g in t.db.rows && t.db.rows[g] == s.db.rows[g]
  {
    hide IsNextOrdinal, IsRetryable, NoActive, KeyUnused;
  }

  lemma RowStepSparesOwned(s: System, t: System, g: nat)
    requires RowStep(s, t) && g in s.db.rows && IsLive(s, g)
    ensures g in t.db.rows && (t.db.rows[g] == s.db.rows[g] || OwnStep(s, t, g))
  {
    hide IsNextOrdinal, SetRunning, CommitSuccess, Fail, FinishStopped, RequestStop;
    if x :| x in s.tasks && t == SetRunning(s, x) {
      WriteSpares(s, x, 0, "", g);
    } else if x, o :| x in s.tasks && x in s.db.rows && IsNextOrdinal(s.db.messages, s.db.rows[x].thread, o) && t == CommitSuccess(s, x, o) {
      WriteSpares(s, x, o, "", g);
    } else if x, code :| x in s.tasks && t == Fail(s, x, code) {
      WriteSpares(s, x, 0, code, g);
    } else if x :| (x in s.tasks || !IsLive(s, x)) && t == FinishStopped(s, x) {
      WriteSpares(s, x, 0, "", g);
    } else {
      var x :| t == RequestStop(s, x);
      WriteSpares(s, x, 0, "", g);
    }
  }

  /** A write to row `x` keeps every row and changes no other. */
  lemma WriteSpares(s: System, x: nat, o: nat, code: string, g: nat)
    requires g in s.db.rows
    ensures g in SetRunning(s, x).db.rows && (g != x ==> SetRunning(s, x).db.rows[g] == s.db.rows[g])
    ensures g in CommitSuccess(s, x, o).db.rows && (g != x ==> CommitSuccess(s, x, o).db.rows[g] == s.db.rows[g])
    ensures g in Fail(s, x, code).db.rows && (g != x ==> Fail(s, x, code).db.rows[g] == s.db.rows[g])
    ensures g in FinishStopped(s, x).db.rows && (g != x ==> FinishStopped(s, x).db.rows[g] == s.db.rows[g])
    ensures g in RequestStop(s, x).db.rows && (g != x ==> RequestStop(s, x).db.rows[g] == s.db.rows[g])
  {
  }

  /** An active row no live request or task owns. */
  predicate IsOrphan(s: System, g: nat) {
    g in s.db.rows && IsActive(s.db.rows[g].status) && !IsLive(s, g)
  }

  /** After a successful submit, handoff or retry the conversation has exactly one active row, and a live one. */
  lemma InsertLeavesNoOrphan(s: System, t: System)
    requires Inv(s) && (Submit(s, t) || SubmitHandoff(s, t) || Retry(s, t))
    ensures exists g :: g in t.db.rows && g !in s.db.rows && t.db.rows[g].status == Queued && IsLive(t, g)
                        && forall h :: h in t.db.rows && h != g && t.db.rows[h].thread == t.db.rows[g].thread ==> !IsActive(t.db.rows[h].status)
  {
    hide DbInv, IsNextOrdinal, IsRetryable, IdsUsed, KeysDistinct, FinalizeOrphans;
    var g :| g in s.starting && g !in s.db.rows && g in t.db.rows && t.db.rows[g].status == Queued
             && t.db.rows == FinalizeOrphans(s, t.db.rows[g].thread)[g := t.db.rows[g]]
             && NoActive(FinalizeOrphans(s, t.db.rows[g].thread), t.db.rows[g].thread) && t.starting == s.starting;
  }

  /** The two transactions of `stop` with nothing between them. */
  function Stop(s: System, g: nat): System {
    var requested := RequestStop(s, g);
    if IsLive(requested, g) then requested else FinishStopped(requested, g)
  }

  /** A row that lost its owner never gets one again, so finishing it races with nobody. */
  lemma OwnerNeverReturns(s: System, t: System, g: nat)
    requires Inv(s) && Next(s, t) && g in s.db.rows && !IsLive(s, g)
    ensures !IsLive(t, g)
  {
    hide DbInv, KeysDistinct, IsNextOrdinal, IsRetryable, FinalizeOrphans, KeyUnused, NoActive;
  }

  lemma {:induction false} OrphansStayOrphans(run: seq<System>, i: nat, j: nat, g: nat)
    requires IsRun(run) && i <= j < |run| && g in run[i].db.rows && !IsLive(run[i], g)
    requires forall k :: i <= k <= j ==> g in run[k].db.rows
    ensures !IsLive(run[j], g)
    decreases j
  {
    hide Next, Inv, Init, IsLive;
    if i < j {
      OrphansStayOrphans(run, i, j - 1, g);
      RunKeeps(run, j - 1);
      assert Next(run[j - 1], run[j - 1 + 1]);
      OwnerNeverReturns(run[j - 1], run[j], g);
    }
  }

  // ----- Stop is two transactions -----

  /**
   `stop` in a run, with any steps between its parts: the request is step `i`, the liveness check reads state `k`
   and finds no owner, the finishing write is step `j`. The conversation is not deleted meanwhile.
   */
  ghost predicate StopsUnowned(run: seq<System>, i: nat, k: nat, j: nat, g: nat) {
    && IsRun(run) && i < k <= j && j + 1 < |run|
    && (forall n :: i <= n <= j + 1 ==> g in run[n].db.rows)
    && run[i + 1] == RequestStop(run[i], g) && run[i + 1].db.rows[g].status.Stopping?
    && !IsLive(run[k], g)
    && run[j + 1] == FinishStopped(run[j], g)
  }

  /** Whatever happens in between, the stopped row ends stopped and without an answer. */
  lemma StopEndsStopped(run: seq<System>, i: nat, k: nat, j: nat, g: nat)
    requires StopsUnowned(run, i, k, j, g)
    ensures run[j + 1].db.rows[g].status.Stopped? && run[j + 1].db.rows[g].result.None? && !IsLive(run[j + 1], g)
  {
    hide IsRun;
    StopWins(run, i + 1, j, g);
    StopWins(run, i + 1, j + 1, g);
    OrphansStayOrphans(run, k, j + 1, g);
  }

  /** While the stopping row has an owner it is no orphan, and it can only end stopped. */
  lemma StopOfOwnedRow(run: seq<System>, i: nat, k: nat, g: nat)
    requires IsRun(run) && i < k < |run| && run[i + 1] == RequestStop(run[i], g)
    requires forall n :: i < n <= k ==> g in run[n].db.rows
    requires run[i + 1].db.rows[g].status.Stopping? && IsLive(run[k], g)
    ensures !IsOrphan(run[k], g) && (run[k].db.rows[g].status.Stopping? || run[k].db.rows[g].status.Stopped?)
  {
    hide IsRun;
    StopWins(run, i + 1, k, g);
  }

  ghost predicate NoOrphan(s: System, thread: nat) {
    forall h <- s.db.rows :: s.db.rows[h].thread == thread ==> !IsOrphan(s, h)
  }

  /** Every active row of the conversation is the stopped one or has an owner. */
  ghost predicate OthersOwned(s: System, g: nat)
    requires g in s.db.rows
  {
    forall h <- s.db.rows :: s.db.rows[h].thread == s.db.rows[g].thread && IsActive(s.db.rows[h].status) ==> h == g || IsLive(s, h)
  }

  /**
   The finishing write leaves no orphan in the conversation if and only if, just before it, every other active row
   of the conversation has an owner; in particular if the stopped row is still active then.
   */
  lemma StopClearsConversation(run: seq<System>, i: nat, k: nat, j: nat, g: nat)
    requires StopsUnowned(run, i, k, j, g)
    ensures NoOrphan(run[j + 1], run[j].db.rows[g].thread) <==> OthersOwned(run[j], g)
    ensures IsActive(run[j].db.rows[g].status) ==> OthersOwned(run[j], g)
  {
    hide Contiguous, Refs, ActiveIsLast, AnswersFollow, TurnsInOrder, Next, Init;
    RunKeeps(run, j);
    OrphansStayOrphans(run, k, j, g);
    var s, t := run[j], run[j + 1];
    forall h | h in s.db.rows && h != g
      ensures h in t.db.rows && t.db.rows[h] == s.db.rows[h] && (IsOrphan(t, h) <==> IsOrphan(s, h))
    {
    }
  }

  /** Rows that were not active when the request was made stay inactive. */
  lemma QuietRowsStayQuiet(run: seq<System>, i: nat, j: nat, g: nat, h: nat)
    requires IsRun(run) && i < j < |run| && run[i + 1] == RequestStop(run[i], g)
    requires forall n :: i < n <= j ==> g in run[n].db.rows && h in run[n].db.rows
    requires run[i + 1].db.rows[g].status.Stopping? && h != g && run[i + 1].db.rows[h].thread == run[i + 1].db.rows[g].thread
    ensures !IsActive(run[j].db.rows[h].status)
  {
    hide IsRun;
    if IsActive(run[i + 1].db.rows[h].status) {
      OneActiveRow(run, i + 1, g, h);
    }
    TerminalStays(run, i + 1, j, h);
  }

  /** If no other request added a row to the conversation meanwhile, Stop leaves no orphan there. */
  lemma UndisturbedStopClears(run: seq<System>, i: nat, k: nat, j: nat, g: nat)
    requires StopsUnowned(run, i, k, j, g)
    requires forall h <- run[j].db.rows :: run[j].db.rows[h].thread == run[j].db.rows[g].thread ==>
               forall n :: i < n <= j ==> h in run[n].db.rows && run[n].db.rows[h].thread == run[n].db.rows[g].thread
    ensures NoOrphan(run[j + 1], run[j].db.rows[g].thread)
  {
    hide IsRun;
    StopClearsConversation(run, i, k, j, g);
    forall h | h in run[j].db.rows && h != g && run[j].db.rows[h].thread == run[j].db.rows[g].thread
      ensures !IsActive(run[j].db.rows[h].status)
    {
      QuietRowsStayQuiet(run, i, j, g, h);
    }
  }

  /** At most one row of a conversation is active. */
  lemma OneActiveRow(run: seq<System>, i: nat, g: nat, h: nat)
    requires IsRun(run) && i < |run| && g in run[i].db.rows && h in run[i].db.rows && run[i].db.rows[g].thread == run[i].db.rows[h].thread
    requires IsActive(run[i].db.rows[g].status) && IsActive(run[i].db.rows[h].status)
    ensures g == h
  {
    hide Next, Init, Contiguous, Refs, ActiveIsLast, AnswersFollow, TurnsInOrder;
    RunKeeps(run, i);
  }

  // ----- the manager object -----

  lemma FinalizedIs(row: Row)
    requires IsActive(row.status)
    ensures Finalized(row) == if row.status.Stopping? then row.(status := Stopped, error := None)
                              else row.(status := Failed, error := Some("generation_interrupted"))
  {
  }

  lemma AllFinalized(s: System, thread: nat, rows: map<nat, Row>)
    requires rows.Keys == s.db.rows.Keys
    requires forall g :: g in s.db.rows ==>
               rows[g] == if s.db.rows[g].thread == thread && IsActive(s.db.rows[g].status) && !IsLive(s, g) then Finalized(s.db.rows[g]) else s.db.rows[g]
    ensures rows == FinalizeOrphans(s, thread)
  {
  }

  class GenerationManager {
    var db: Db
    var starting: set<nat>
    var tasks: set<nat>
    var next: nat
    var up: bool

    constructor ()
      ensures Init(Value())
    {
      db, starting, tasks, next, up := Db({}, map[], map[]), {}, {}, 0, true;
    }

    ghost function Value(): System
      reads this
    {
      System(db, starting, tasks, next, up)
    }

    /** `_transition` with an error code: one conditional update. */
    method Transition(g: nat, allowed: set<Status>, to: Status, error: Option<string>) returns (done: bool)
      modifies this`db
      ensures done == (g in old(db.rows) && old(db.rows)[g].status in allowed)
      ensures db == old(db).(rows := MoveWith(old(db.rows), g, allowed, to, error))
      ensures db == if done then old(db).(rows := old(db.rows)[g := old(db.rows)[g].(status := to, error := error)]) else old(db)
    {
      done := g in db.rows && db.rows[g].status in allowed;
      if done {
        db := db.(rows := db.rows[g := db.rows[g].(status := to, error := error)]);
      }
    }

    /** `_finalize_orphans`: finishes the active rows of a thread that nothing owns. */
    method FinishOrphans(thread: nat) returns (finalized: set<nat>)
      modifies this`db
      ensures db == old(db).(rows := FinalizeOrphans(old(Value()), thread))
      ensures finalized == set g | g in old(db.rows) && old(db.rows)[g].thread == thread && IsOrphan(old(Value()), g)
    {
      hide FinalizeOrphans, Finalized;
      ghost var start := Value();
      var rows := db.rows;
      var todo := set g | g in rows && rows[g].thread == thread && IsActive(rows[g].status);
      ghost var active := todo;
      finalized := {};
      while todo != {}
        invariant todo <= active <= rows.Keys && rows == start.db.rows
        invariant db == start.db.(rows := db.rows) && db.rows.Keys == rows.Keys
        invariant starting == start.starting && tasks == start.tasks && next == start.next && up == start.up
        invariant forall g :: g in rows ==>
                    db.rows[g] == if g in active - todo && !IsLive(start, g) then Finalized(rows[g]) else rows[g]
        invariant finalized == set g | g in active - todo && !IsLive(start, g)
        decreases todo
      {
        var g :| g in todo;
        todo := todo - {g};
        if !(g in starting || g in tasks) {
          FinalizedIs(rows[g]);
          var done;
          if rows[g].status.Stopping? {
            done := Transition(g, {Stopping}, Stopped, None);
          } else {
            done := Transition(g, {Queued, Running}, Failed, Some("generation_interrupted"));
          }
          if done {
            finalized := finalized + {g};
          }
        }
      }
      AllFinalized(start, thread, db.rows);
    }

    /** The ordinal that `_insert_message` allocates. */
    method NextOrdinal(thread: nat) returns (o: nat)
      ensures IsNextOrdinal(db.messages, thread, o)
    {
      o := 1;
      var todo := db.messages.Keys;
      while todo != {}
        invariant todo <= db.messages.Keys && o >= 1
        invariant forall m :: m in db.messages && m !in todo && db.messages[m].thread == thread ==> db.messages[m].ordinal < o
        invariant o == 1 || exists m :: m in db.messages && db.messages[m].thread == thread && db.messages[m].ordinal == o - 1
        decreases todo
      {
        var m :| m in todo;
        todo := todo - {m};
        if db.messages[m].thread == thread && db.messages[m].ordinal >= o {
          o := db.messages[m].ordinal + 1;
        }
      }
    }

    /** `_commit_success_once`: false when a Stop already moved the row on. */
    method Commit(g: nat) returns (claimed: bool, o: nat)
      modifies this
      ensures claimed == (g in old(db.rows) && old(db.rows)[g].status.Running?)
      ensures claimed ==> IsNextOrdinal(old(db.messages), old(db.rows)[g].thread, o)
      ensures Value() == CommitSuccess(old(Value()), g, o)
      ensures !claimed ==> Value() == old(Value())
      ensures claimed && old(db.rows)[g].purpose.Handoff? ==>
                db == old(db).(rows := old(db.rows)[g := old(db.rows)[g].(status := Completed)]) && next == old(next)
      ensures claimed && old(db.rows)[g].purpose.Chat? ==>
                && next == old(next) + 1
                && db.messages == old(db.messages)[old(next) := Message(old(db.rows)[g].thread, o, false)]
                && db.rows == old(db.rows)[g := old(db.rows)[g].(status := Completed, result := Some(old(next)))]
                && db.threads == old(db.threads)
      ensures claimed && old(db.rows)[g].purpose.Chat? && Inv(old(Value())) ==>
                && old(next) !in old(db.messages) && old(db.rows)[g].source.Some? && old(db.rows)[g].source.value in old(db.messages)
                && o == old(db.messages)[old(db.rows)[g].source.value].ordinal + 1
    {
      hide Inv;
      ghost var start := Value();
      o := 1;
      claimed := g in db.rows && db.rows[g].status.Running?;
      if !claimed {
        return;
      }
      var row := db.rows[g];
      o := NextOrdinal(row.thread);
      if row.purpose.Handoff? {
        db := db.(rows := db.rows[g := row.(status := Completed)]);
      } else {
        db := Db(db.threads, db.messages[next := Message(row.thread, o, false)],
                 db.rows[g := row.(status := Completed, result := Some(next))]);
        next := next + 1;
        if Inv(start) {
          AnswerFollows(start, g, o);
        }
      }
    }

    /** `stop`, uninterleaved: its two transactions with no step of another request or task between them. */
    method StopGeneration(g: nat)
      modifies this`db
      ensures Value() == if g in old(db.rows) && IsActive(old(db.rows)[g].status) then Stop(old(Value()), g) else old(Value())
      ensures g in old(db.rows) && IsActive(old(db.rows)[g].status) ==>
                var row := old(db.rows)[g];
                db == old(db).(rows := old(db.rows)[g := if g in starting || g in tasks then row.(status := Stopping) else row.(status := Stopped, error := None)])
    {
      if g !in db.rows {
        return;
      }
      var row := db.rows[g];
      if row.status.Queued? || row.status.Running? {
        db := db.(rows := db.rows[g := row.(status := Stopping)]);
      } else if !row.status.Stopping? {
        return;
      }
      if !(g in starting || g in tasks) {
        var _ := Transition(g, ACTIVE, Stopped, None);
      }
    }

    /** `reconcile_orphans`: three bulk updates before anything runs. */
    method ReconcileOrphans()
      requires !up && Inv(Value())
      modifies this
      ensures Value() == Startup(old(Value())) && Inv(Value())
      ensures FinishedAll(old(db), db)
    {
      StartupKeeps(Value());
      StartupFinishesAll(Value());
      db := db.(rows := CompleteAnswered(db.rows));
      db := db.(rows := StopStopping(db.rows));
      db := db.(rows := FailInterrupted(db.rows));
      up := true;
    }
  }
}
