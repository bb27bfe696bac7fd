/**
 The append-only usage ledger (src/oveo/usage.py; `_record_provider_ids`, `_record_usage` and
 `reconcile_pending_costs`, src/oveo/generation.py).
 */
module Ledger {
  import opened GenerationStatus

  datatype Kind = Pending | Charge

  /** `call` is the provider generation id, when the provider named one. */
  datatype Row = Row(key: string, kind: Kind, purpose: string, amount: int, call: Option<string>)

  // ----- keys -----

  predicate NoColon(s: string) {
    forall i :: 0 <= i < |s| ==> s[i] != ':'
  }

  function Key(scope: string, purpose: string, suffix: string): string {
    scope + ":" + purpose + ":" + suffix
  }

  const PENDING := "reconcile-pending"
  const CHARGE := "reconciled-charge"

  function Suffix(failed: bool): string {
    if failed then "failed-charge" else "charge"
  }

  /** The text before the last colon and the text after it are determined by the whole. */
  lemma LastColon(a: string, b: string, c: string, d: string)
    requires a + ":" + b == c + ":" + d && NoColon(b) && NoColon(d)
    ensures a == c && b == d
  {
    var s, t := a + ":" + b, c + ":" + d;
    assert s[|a|] == ':' && t[|c|] == ':';
    assert forall i :: 0 <= i < |b| ==> s[|a| + 1 + i] == b[i];
    assert forall i :: 0 <= i < |d| ==> t[|c| + 1 + i] == d[i];
    assert a == s[..|a|] && c == t[..|c|] && b == s[|a| + 1..] && d == t[|c| + 1..];
  }

  /** Purposes and suffixes hold no colon, so a key names one scope, purpose and suffix; the scope may hold colons. */
  lemma KeyInjective(a: string, p: string, s: string, b: string, q: string, t: string)
    requires Key(a, p, s) == Key(b, q, t) && NoColon(p) && NoColon(s) && NoColon(q) && NoColon(t)
    ensures a == b && p == q && s == t
  {
    LastColon(a + ":" + p, s, b + ":" + q, t);
    LastColon(a, p, b, q);
  }

  // ----- rows -----

  function PendingRow(g: string, purpose: string): Row {
    Row(Key(g, purpose, PENDING), Pending, purpose, 0, Some(g))
  }

  function ChargeRow(g: string, purpose: string, amount: int): Row {
    Row(Key(g, purpose, CHARGE), Charge, purpose, amount, Some(g))
  }

  /** A call without a provider generation id is keyed by its request id or its generation. */
  function UnnamedRow(scope: string, purpose: string, failed: bool, amount: int): Row {
    Row(Key(scope, purpose, Suffix(failed)), Charge, purpose, amount, None)
  }

  ghost predicate HasKey(rows: seq<Row>, key: string) {
    exists i :: 0 <= i < |rows| && rows[i].key == key
  }

  /** `append_usage_event`: the unique key decides. */
  ghost function Append(rows: seq<Row>, r: Row): (after: seq<Row>)
    ensures rows <= after
  {
    if HasKey(rows, r.key) then rows else rows + [r]
  }

  /** `after` is `before` with `r` at its end, unless another row has its key. */
  ghost predicate AddsOnce(before: seq<Row>, after: seq<Row>, r: Row) {
    after == if exists i :: 0 <= i < |before| && before[i].key == r.key then before else before + [r]
  }

  ghost predicate Charged(rows: seq<Row>, g: string) {
    exists i :: 0 <= i < |rows| && rows[i].kind.Charge? && rows[i].call == Some(g)
  }

  /** A pending row that reconciliation still has to settle. */
  ghost predicate IsCandidate(rows: seq<Row>, r: Row) {
    r in rows && r.kind.Pending? && r.call.Some? && !Charged(rows, r.call.value)
  }

  // ----- steps -----

  /**
   The ledger, the candidates a reconciliation pass still holds in memory, and two records of the past: the calls
   that were recorded and the amounts the provider reported for them.
   */
  datatype State = State(rows: seq<Row>, pass: seq<Row>, recorded: set<string>, reported: set<(string, int)>)

  /** The purpose of each provider call, by its provider generation id. */
  type Calls = map<string, string>

  ghost predicate Purposes(calls: Calls) {
    forall g <- calls :: NoColon(calls[g])
  }

  /** An id seen early in the stream, or a call that ended without a cost. */
  ghost function Record(calls: Calls, s: State, g: string): State
    requires g in calls
  {
    s.(rows := Append(s.rows, PendingRow(g, calls[g])), recorded := s.recorded + {g})
  }

  /** A call that ended, well or not, with a cost. */
  ghost function Finish(calls: Calls, s: State, g: string, amount: int): State
    requires g in calls
  {
    s.(rows := Append(s.rows, ChargeRow(g, calls[g], amount)), recorded := s.recorded + {g}, reported := s.reported + {(g, amount)})
  }

  /** The second half of reconciling one candidate: the provider's metadata named an amount. */
  ghost function Settle(s: State, r: Row, amount: int): State
    requires r.call.Some?
  {
    s.(rows := Append(s.rows, ChargeRow(r.call.value, r.purpose, amount)), reported := s.reported + {(r.call.value, amount)})
  }

  ghost predicate Next(calls: Calls, s: State, t: State) {
    || (exists g :: g in calls && t == Record(calls, s, g))
    || (exists g, amount :: g in calls && t == Finish(calls, s, g, amount))
    || (exists scope, purpose, failed, amount ::
          NoColon(purpose) && t == s.(rows := Append(s.rows, UnnamedRow(scope, purpose, failed, amount))))
    || (exists picked :: (forall r <- picked :: IsCandidate(s.rows, r)) && t == s.(pass := picked))
    || (exists r, amount :: r in s.pass && r.call.Some? && t == Settle(s, r, amount))
    || t == s.(pass := [])
  }

  ghost predicate IsRun(calls: Calls, run: seq<State>) {
    && Purposes(calls) && run != [] && run[0] == State([], [], {}, {})
    && forall k :: 0 <= k < |run| - 1 ==> Next(calls, run[k], run[k + 1])
  }

  // ----- the invariant -----

  ghost predicate UniqueKeys(rows: seq<Row>) {
    forall i, j :: 0 <= i < j < |rows| ==> rows[i].key != rows[j].key
  }

  ghost predicate RowOk(calls: Calls, reported: set<(string, int)>, r: Row) {
    match r.call
    case Some(g) =>
      && g in calls && (r.kind.Charge? ==> (g, r.amount) in reported)
      && (r == PendingRow(g, calls[g]) || r == ChargeRow(g, calls[g], r.amount))
    case None => IsUnnamed(r)
  }

  ghost predicate IsUnnamed(r: Row) {
    exists scope, failed :: NoColon(r.purpose) && r == UnnamedRow(scope, r.purpose, failed, r.amount)
  }

  ghost predicate RowsOk(calls: Calls, s: State) {
    forall i :: 0 <= i < |s.rows| ==> RowOk(calls, s.reported, s.rows[i])
  }

  ghost predicate Traced(rows: seq<Row>, g: string) {
    exists i :: 0 <= i < |rows| && rows[i].call == Some(g)
  }

  ghost predicate Inv(calls: Calls, s: State) {
    && Purposes(calls) && UniqueKeys(s.rows) && RowsOk(calls, s)
    && (forall r <- s.pass :: r in s.rows)
    && (forall g <- s.recorded :: Traced(s.rows, g))
  }

  lemma SuffixesDiffer()
    ensures NoColon(PENDING) && NoColon(CHARGE) && NoColon(Suffix(true)) && NoColon(Suffix(false))
    ensures PENDING != CHARGE && forall failed :: Suffix(failed) != PENDING && Suffix(failed) != CHARGE
  {
    assert |PENDING| == 17 && |CHARGE| == 17 && PENDING[9] == '-' && CHARGE[9] == 'd';
    assert |Suffix(true)| == 13 && |Suffix(false)| == 6;
  }

  /** A row with the key of a named row belongs to the same call. */
  lemma SameCall(calls: Calls, reported: set<(string, int)>, r: Row, g: string, kind: Kind, amount: int)
    requires Purposes(calls) && g in calls && RowOk(calls, reported, r)
    requires r.key == if kind.Pending? then PendingRow(g, calls[g]).key else ChargeRow(g, calls[g], amount).key
    ensures r.call == Some(g) && r.kind == kind
  {
    hide Key;
    SuffixesDiffer();
    var suffix := if kind.Pending? then PENDING else CHARGE;
    if r.call.None? {
      var scope, failed :| NoColon(r.purpose) && r == UnnamedRow(scope, r.purpose, failed, r.amount);
      KeyInjective(scope, r.purpose, Suffix(failed), g, calls[g], suffix);
    } else {
      var h := r.call.value;
      KeyInjective(h, calls[h], if r.kind.Pending? then PENDING else CHARGE, g, calls[g], suffix);
    }
  }

  lemma AppendKeeps(calls: Calls, s: State, t: State, r: Row)
    requires Inv(calls, s) && t.rows == Append(s.rows, r) && t.pass == s.pass && s.reported <= t.reported
    requires RowOk(calls, t.reported, r)
    ensures UniqueKeys(t.rows) && RowsOk(calls, t) && (forall q <- t.pass :: q in t.rows)
    ensures forall g <- s.recorded :: Traced(t.rows, g)
  {
    hide Key, IsUnnamed;
    assert forall i :: 0 <= i < |s.rows| ==> t.rows[i] == s.rows[i];
    forall i | 0 <= i < |s.rows|
      ensures RowOk(calls, t.reported, t.rows[i])
    {
      assert RowOk(calls, s.reported, s.rows[i]);
    }
    forall g | g in s.recorded
      ensures Traced(t.rows, g)
    {
      assert Traced(s.rows, g);
      var i :| 0 <= i < |s.rows| && s.rows[i].call == Some(g);
      assert t.rows[i].call == Some(g);
    }
    forall q | q in t.pass
      ensures q in t.rows
    {
      var i :| 0 <= i < |s.rows| && s.rows[i] == q;
      assert t.rows[i] == q;
    }
  }

  /** After appending a row of a call, the call has a row: the new one, or the one that took its key. */
  lemma AppendTraces(calls: Calls, s: State, g: string, kind: Kind, amount: int)
    requires Inv(calls, s) && g in calls
    ensures var r := if kind.Pending? then PendingRow(g, calls[g]) else ChargeRow(g, calls[g], amount);
            Traced(Append(s.rows, r), g) && (kind.Charge? ==> Charged(Append(s.rows, r), g))
  {
    hide Key;
    var r := if kind.Pending? then PendingRow(g, calls[g]) else ChargeRow(g, calls[g], amount);
    var rows := Append(s.rows, r);
    if HasKey(s.rows, r.key) {
      var i :| 0 <= i < |s.rows| && s.rows[i].key == r.key;
      SameCall(calls, s.reported, s.rows[i], g, kind, amount);
    } else {
      assert rows[|s.rows|] == r;
    }
  }

  /** A candidate of a pass is a recorded pending row of its call. */
  lemma PassRow(calls: Calls, s: State, r: Row)
    requires Inv(calls, s) && r in s.pass && r.call.Some?
    ensures r.call.value in calls && r.purpose == calls[r.call.value]
  {
    var i :| 0 <= i < |s.rows| && s.rows[i] == r;
    assert RowOk(calls, s.reported, s.rows[i]);
  }

  lemma NextKeeps(calls: Calls, s: State, t: State)
    requires Inv(calls, s) && Next(calls, s, t)
    ensures Inv(calls, t)
  {
    hide RowsOk, UniqueKeys, Key, Append, Traced, Purposes;
    if g :| g in calls && t == Record(calls, s, g) {
      AppendTraces(calls, s, g, Pending, 0);
      AppendKeeps(calls, s, t, PendingRow(g, calls[g]));
    } else if g, amount :| g in calls && t == Finish(calls, s, g, amount) {
      AppendTraces(calls, s, g, Charge, amount);
      AppendKeeps(calls, s, t, ChargeRow(g, calls[g], amount));
    } else if scope, purpose, failed, amount :|
        NoColon(purpose) && t == s.(rows := Append(s.rows, UnnamedRow(scope, purpose, failed, amount))) {
      var r := UnnamedRow(scope, purpose, failed, amount);
      assert IsUnnamed(r);
      AppendKeeps(calls, s, t, r);
    } else if picked :| (forall r <- picked :: IsCandidate(s.rows, r)) && t == s.(pass := picked) {
      PassKeeps(calls, s, t);
    } else if r, amount :| r in s.pass && r.call.Some? && t == Settle(s, r, amount) {
      PassRow(calls, s, r);
      AppendKeeps(calls, s, t, ChargeRow(r.call.value, r.purpose, amount));
    } else {
      PassKeeps(calls, s, t);
    }
  }

  lemma PassKeeps(calls: Calls, s: State, t: State)
    requires Inv(calls, s) && t == s.(pass := t.pass) && forall r <- t.pass :: r in s.rows
    ensures Inv(calls, t)
  {
    assert RowsOk(calls, t);
  }

  lemma {:induction false} RunKeeps(calls: Calls, run: seq<State>, k: nat)
    requires IsRun(calls, run) && k < |run|
    ensures Inv(calls, run[k])
  {
    hide Next;
    if k > 0 {
      RunKeeps(calls, run, k - 1);
      NextKeeps(calls, run[k - 1], run[k]);
    }
  }

  // ----- what it means -----

  /** A call is charged at most once, however its recording, its end, reconciliation and restarts interleave. */
  lemma ChargedAtMostOnce(calls: Calls, run: seq<State>, k: nat, i: nat, j: nat)
    requires IsRun(calls, run) && k < |run|
    requires i < |run[k].rows| && j < |run[k].rows| && run[k].rows[i].kind.Charge? && run[k].rows[j].kind.Charge?
    requires run[k].rows[i].call.Some? && run[k].rows[i].call == run[k].rows[j].call
    ensures i == j
  {
    hide IsRun, Key;
    RunKeeps(calls, run, k);
    assert RowOk(calls, run[k].reported, run[k].rows[i]) && RowOk(calls, run[k].reported, run[k].rows[j]);
  }

  /** A recorded call is never lost: from then on it has a row, and until it is charged reconciliation can pick it. */
  lemma RecordedIsNeverLost(calls: Calls, run: seq<State>, k: nat, g: string)
    requires IsRun(calls, run) && k < |run| && g in run[k].recorded
    ensures g in calls && (Charged(run[k].rows, g) || IsCandidate(run[k].rows, PendingRow(g, calls[g])))
  {
    hide IsRun, Key;
    RunKeeps(calls, run, k);
    var s := run[k];
    assert Traced(s.rows, g);
    var i :| 0 <= i < |s.rows| && s.rows[i].call == Some(g);
    assert RowOk(calls, s.reported, s.rows[i]);
  }

  /** Rows are never changed or removed, and what was recorded or reported stays so. */
  lemma {:induction false} LedgerOnlyGrows(calls: Calls, run: seq<State>, j: nat, k: nat)
    requires IsRun(calls, run) && j <= k < |run|
    ensures run[j].rows <= run[k].rows && run[j].recorded <= run[k].recorded && run[j].reported <= run[k].reported
    decreases k
  {
    hide Next;
    if j < k {
      LedgerOnlyGrows(calls, run, j, k - 1);
      NextGrows(calls, run[k - 1], run[k]);
    }
  }

  lemma NextGrows(calls: Calls, s: State, t: State)
    requires Next(calls, s, t)
    ensures s.rows <= t.rows && s.recorded <= t.recorded && s.reported <= t.reported
  {
    hide Append, Key;
  }

  /** The charged calls with their amounts, read off the ledger. */
  ghost function Charges(rows: seq<Row>): map<string, int> {
    if rows == [] then map[]
    else
      var before, r := Charges(rows[..|rows| - 1]), rows[|rows| - 1];
      if r.kind.Charge? && r.call.Some? then before[r.call.value := r.amount] else before
  }

  ghost function UnnamedTotal(rows: seq<Row>): int {
    if rows == [] then 0
    else
      var r := rows[|rows| - 1];
      UnnamedTotal(rows[..|rows| - 1]) + if r.kind.Charge? && r.call.None? then r.amount else 0
  }

  ghost function Sum(m: map<string, int>): int {
    if m == map[] then 0
    else
      var g :| g in m;
      m[g] + Sum(m - {g})
  }

  lemma {:induction false} SumAdd(m: map<string, int>, g: string, amount: int)
    requires g !in m
    ensures Sum(m[g := amount]) == Sum(m) + amount
    decreases |m|
  {
    var n := m[g := amount];
    assert n != map[];
    var h :| h in n && Sum(n) == n[h] + Sum(n - {h});
    if h == g {
      assert n - {h} == m;
    } else {
      assert n - {h} == (m - {h})[g := amount];
      SumAdd(m - {h}, g, amount);
      SumRemove(m, h);
    }
  }

  lemma {:induction false} SumRemove(m: map<string, int>, h: string)
    requires h in m
    ensures Sum(m) == m[h] + Sum(m - {h})
    decreases |m|
  {
    var g :| g in m && Sum(m) == m[g] + Sum(m - {g});
    if g != h {
      SumRemove(m - {g}, h);
      SumRemove(m - {h}, g);
      assert m - {g} - {h} == m - {h} - {g};
    }
  }

  /** `lifetime_total`: the sum over all charge rows. */
  ghost function Total(rows: seq<Row>): int {
    if rows == [] then 0
    else
      var r := rows[|rows| - 1];
      Total(rows[..|rows| - 1]) + if r.kind.Charge? then r.amount else 0
  }

  method LifetimeTotal(rows: seq<Row>) returns (total: int)
    ensures total == Total(rows)
  {
    total := 0;
    for i := 0 to |rows|
      invariant total == Total(rows[..i])
    {
      assert rows[..i + 1][..i] == rows[..i];
      if rows[i].kind.Charge? {
        total := total + rows[i].amount;
      }
    }
    assert rows[..|rows|] == rows;
  }

  ghost predicate ChargedOnce(rows: seq<Row>) {
    forall i, j :: 0 <= i < j < |rows| && rows[i].kind.Charge? && rows[j].kind.Charge? && rows[i].call.Some? ==>
      rows[i].call != rows[j].call
  }

  lemma {:induction false} ChargesOf(rows: seq<Row>, g: string)
    ensures g in Charges(rows) <==> Charged(rows, g)
    ensures g in Charges(rows) ==> exists i :: 0 <= i < |rows| && rows[i].kind.Charge? && rows[i].call == Some(g) && rows[i].amount == Charges(rows)[g]
  {
    if rows != [] {
      var before, r := rows[..|rows| - 1], rows[|rows| - 1];
      ChargesOf(before, g);
      if g in Charges(before) && !(r.kind.Charge? && r.call == Some(g)) {
        var i :| 0 <= i < |before| && before[i].kind.Charge? && before[i].call == Some(g) && before[i].amount == Charges(before)[g];
        assert rows[i].amount == Charges(rows)[g];
      }
      if Charged(rows, g) {
        var i :| 0 <= i < |rows| && rows[i].kind.Charge? && rows[i].call == Some(g);
        assert i < |before| ==> before[i] == rows[i];
      }
    }
  }

  lemma {:induction false} TotalSplits(rows: seq<Row>)
    requires ChargedOnce(rows)
    ensures Total(rows) == Sum(Charges(rows)) + UnnamedTotal(rows)
  {
    hide Sum;
    if rows == [] {
      SumOfNothing();
    } else {
      var before, r := rows[..|rows| - 1], rows[|rows| - 1];
      TotalSplits(before);
      if r.kind.Charge? && r.call.Some? {
        ChargesOf(before, r.call.value);
        assert forall i :: 0 <= i < |before| ==> before[i] == rows[i];
        SumAdd(Charges(before), r.call.value, r.amount);
      }
    }
  }

  lemma SumOfNothing()
    ensures Sum(map[]) == 0
  {
  }

  /**
   The lifetime total is the sum of one amount per charged call, each amount one the provider reported for that
   very call, plus the charges of calls the provider did not name.
   */
  lemma TotalIsOneAmountPerCall(calls: Calls, run: seq<State>, k: nat)
    requires IsRun(calls, run) && k < |run|
    ensures var s := run[k];
            && Total(s.rows) == Sum(Charges(s.rows)) + UnnamedTotal(s.rows)
            && (forall g :: g in Charges(s.rows) <==> Charged(s.rows, g))
            && (forall g <- Charges(s.rows) :: (g, Charges(s.rows)[g]) in s.reported)
  {
    hide IsRun, Key, Sum, Charges, Total, UnnamedTotal, Inv;
    var s := run[k];
    forall i, j | 0 <= i < j < |s.rows| && s.rows[i].kind.Charge? && s.rows[j].kind.Charge? && s.rows[i].call.Some?
      ensures s.rows[i].call != s.rows[j].call
    {
      if s.rows[i].call == s.rows[j].call {
        ChargedAtMostOnce(calls, run, k, i, j);
      }
    }
    TotalSplits(s.rows);
    RunKeeps(calls, run, k);
    forall g
      ensures g in Charges(s.rows) <==> Charged(s.rows, g)
      ensures g in Charges(s.rows) ==> (g, Charges(s.rows)[g]) in s.reported
    {
      ChargesOf(s.rows, g);
      if g in Charges(s.rows) {
        AmountReported(calls, s, g);
      }
    }
  }

  lemma AmountReported(calls: Calls, s: State, g: string)
    requires Inv(calls, s) && g in Charges(s.rows)
    ensures (g, Charges(s.rows)[g]) in s.reported
  {
    ChargesOf(s.rows, g);
    var i :| 0 <= i < |s.rows| && s.rows[i].kind.Charge? && s.rows[i].call == Some(g) && s.rows[i].amount == Charges(s.rows)[g];
    assert RowOk(calls, s.reported, s.rows[i]);
  }

  // ----- the ledger table -----

  function Candidates(rows: seq<Row>, charged: set<string>): seq<Row> {
    if rows == [] then []
    else
      var r := rows[|rows| - 1];
      Candidates(rows[..|rows| - 1], charged)
      + if r.kind.Pending? && r.call.Some? && r.call.value !in charged then [r] else []
  }

  /** A pass picks its candidates from the ledger it reads. */
  lemma {:induction false} CandidatesAre(rows: seq<Row>, charged: set<string>, r: Row)
    ensures r in Candidates(rows, charged) <==> r in rows && r.kind.Pending? && r.call.Some? && r.call.value !in charged
  {
    if rows != [] {
      CandidatesAre(rows[..|rows| - 1], charged, r);
      assert rows == rows[..|rows| - 1] + [rows[|rows| - 1]];
    }
  }

  lemma {:induction false} CandidatesPrefix(rows: seq<Row>, charged: set<string>, j: nat)
    requires j <= |rows|
    ensures Candidates(rows[..j], charged) <= Candidates(rows, charged)
  {
    if j == |rows| {
      assert rows[..j] == rows;
    } else {
      CandidatesPrefix(rows[..|rows| - 1], charged, j);
      assert rows[..|rows| - 1][..j] == rows[..j];
    }
  }

  /** Oldest first: with a row, the first `k` candidates hold every candidate before it. */
  lemma OldestFirst(rows: seq<Row>, charged: set<string>, k: nat, i: nat, j: nat)
    requires UniqueKeys(rows) && i < j < |rows| && k <= |Candidates(rows, charged)|
    requires rows[j] in Candidates(rows, charged)[..k] && rows[i] in Candidates(rows, charged)
    ensures rows[i] in Candidates(rows, charged)[..k]
  {
    hide Candidates, UniqueKeys;
    var all, before := Candidates(rows, charged), Candidates(rows[..j], charged);
    CandidatesPrefix(rows, charged, j);
    CandidatesAre(rows, charged, rows[i]);
    CandidatesAre(rows[..j], charged, rows[i]);
    assert rows[..j][i] == rows[i];
    var n :| 0 <= n < |before| && before[n] == rows[i];
    if k <= n {
      var m :| 0 <= m < k && all[m] == rows[j];
      assert before[m] == rows[j];
      CandidatesAre(rows[..j], charged, rows[j]);
      RowIsNew(rows, j);
    }
    assert all[..k][n] == rows[i];
  }

  lemma RowIsNew(rows: seq<Row>, j: nat)
    requires UniqueKeys(rows) && j < |rows|
    ensures rows[j] !in rows[..j]
  {
  }

  /** The query for pending rows that no charge of the same call settles. */
  method FindCandidates(rows: seq<Row>) returns (candidates: seq<Row>)
    ensures forall r :: r in candidates <==> IsCandidate(rows, r)
    ensures UniqueKeys(rows) ==>
              forall k, i, j :: 0 <= k <= |candidates| && 0 <= i < j < |rows| && rows[j] in candidates[..k] && rows[i] in candidates
                                ==> rows[i] in candidates[..k]
  {
    hide Charged;
    var charged: set<string> := {};
    NothingCharged();
    for i := 0 to |rows|
      invariant forall g :: g in charged <==> Charged(rows[..i], g)
    {
      assert rows[..i + 1] == rows[..i] + [rows[i]];
      ChargedSnoc(rows[..i], rows[i]);
      if rows[i].kind.Charge? && rows[i].call.Some? {
        charged := charged + {rows[i].call.value};
      }
    }
    assert rows[..|rows|] == rows;
    candidates := Candidates(rows, charged);
    forall r
      ensures r in candidates <==> IsCandidate(rows, r)
    {
      CandidatesAre(rows, charged, r);
    }
    forall k, i, j | UniqueKeys(rows) && 0 <= k <= |candidates| && 0 <= i < j < |rows| && rows[j] in candidates[..k] && rows[i] in candidates
      ensures rows[i] in candidates[..k]
    {
      OldestFirst(rows, charged, k, i, j);
    }
  }

  lemma NothingCharged()
    ensures forall g :: !Charged([], g)
  {
  }

  class UsageLedger {
    var rows: seq<Row>

    constructor ()
      ensures rows == []
    {
      rows := [];
    }

    method AppendUsageEvent(r: Row) returns (added: bool)
      modifies this
      ensures rows == Append(old(rows), r) && AddsOnce(old(rows), rows, r)
      ensures added <==> !HasKey(old(rows), r.key)
    {
      var i := 0;
      while i < |rows|
        invariant 0 <= i <= |rows| && forall k :: 0 <= k < i ==> rows[k].key != r.key
      {
        if rows[i].key == r.key {
          return false;
        }
        i := i + 1;
      }
      rows := rows + [r];
      return true;
    }

    /** `_record_usage`: a cost is charged, a named call without one stays reconcilable. */
    method RecordUsage(ghost calls: Calls, ghost s: State, call: Option<string>, scope: string, purpose: string, failed: bool, cost: Option<int>)
      returns (ghost t: State)
      requires Inv(calls, s) && s.rows == rows && NoColon(purpose)
      requires call.Some? ==> call.value in calls && calls[call.value] == purpose
      modifies this
      ensures rows == t.rows && (t == s || Next(calls, s, t))
      ensures call.Some? ==> Traced(rows, call.value) && (cost.Some? ==> Charged(rows, call.value))
      ensures call.None? && cost.None? ==> rows == old(rows)
      ensures call.Some? && cost.None? ==>
                AddsOnce(old(rows), rows, Row(call.value + ":" + purpose + ":" + "reconcile-pending", Pending, purpose, 0, call))
      ensures call.Some? && cost.Some? ==>
                AddsOnce(old(rows), rows, Row(call.value + ":" + purpose + ":" + "reconciled-charge", Charge, purpose, cost.value, call))
      ensures call.None? && cost.Some? ==>
                AddsOnce(old(rows), rows, Row(scope + ":" + purpose + ":" + (if failed then "failed-charge" else "charge"), Charge, purpose, cost.value, None))
      ensures t.reported == if call.Some? && cost.Some? then s.reported + {(call.value, cost.value)} else s.reported
      ensures t.recorded == if call.Some? then s.recorded + {call.value} else s.recorded
    {
      hide Append, Inv, AddsOnce;
      t := s;
      if cost.None? && call.None? {
        return;
      }
      if cost.None? {
        var _ := AppendUsageEvent(PendingRow(call.value, purpose));
        t := Record(calls, s, call.value);
        AppendTraces(calls, s, call.value, Pending, 0);
      } else if call.Some? {
        var _ := AppendUsageEvent(ChargeRow(call.value, purpose, cost.value));
        t := Finish(calls, s, call.value, cost.value);
        AppendTraces(calls, s, call.value, Charge, cost.value);
      } else {
        var _ := AppendUsageEvent(UnnamedRow(scope, purpose, failed, cost.value));
        t := s.(rows := Append(s.rows, UnnamedRow(scope, purpose, failed, cost.value)));
      }
    }

    /** The candidates of one pass: the oldest ones, at most `batch`. */
    method PickCandidates(batch: nat) returns (picked: seq<Row>)
      ensures forall r <- picked :: IsCandidate(rows, r)
      ensures |picked| < batch ==> forall r :: IsCandidate(rows, r) ==> r in picked
      ensures UniqueKeys(rows) ==> OldestPicked(rows, picked)
    {
      hide IsCandidate, UniqueKeys;
      var candidates := FindCandidates(rows);
      assert candidates[..|candidates|] == candidates;
      picked := if |candidates| <= batch then candidates else candidates[..batch];
      assert forall r :: r in picked ==> r in candidates;
    }

    /** One pass of `reconcile_pending_costs`; `metadata` holds the amounts the provider can name by now. */
    method ReconcilePendingCosts(ghost calls: Calls, ghost s: State, metadata: map<string, int>, batch: nat)
      returns (ghost run: seq<State>, ghost picked: seq<Row>)
      requires Inv(calls, s) && s.rows == rows
      modifies this
      ensures run != [] && run[0] == s && run[|run| - 1].rows == rows
      ensures forall k :: 0 <= k < |run| - 1 ==> Next(calls, run[k], run[k + 1])
      ensures old(rows) <= rows
      ensures forall r <- picked :: IsCandidate(old(rows), r) && (r.call.value in metadata ==> ChargedWith(rows, r.call.value, metadata[r.call.value]))
      ensures |picked| < batch ==> forall r :: IsCandidate(old(rows), r) ==> r in picked
      ensures OldestPicked(old(rows), picked)
      ensures forall i :: |old(rows)| <= i < |rows| ==> IsSettled(metadata, picked, rows[i])
    {
      hide Append, Key, Inv, Next, IsSettled, Charged, ChargedWith, OldestPicked, Settle, AddsOnce, ChargeRow, HasKey;
      HasUniqueKeys(calls, s);
      hide UniqueKeys, RowsOk, RowOk;
      var pending := PickCandidates(batch);
      picked := pending;
      ghost var t := s.(pass := pending);
      PicksCandidates(calls, s, t);
      run := [s, t];
      for k := 0 to |pending|
        invariant Inv(calls, t) && t.rows == rows && t.pass == pending && old(rows) <= rows
        invariant run != [] && run[0] == s && run[|run| - 1] == t
        invariant forall n :: 0 <= n < |run| - 1 ==> Next(calls, run[n], run[n + 1])
        invariant forall n :: 0 <= n < k ==> pending[n].call.Some? && (pending[n].call.value in metadata ==> Charged(rows, pending[n].call.value))
        invariant forall i :: |old(rows)| <= i < |rows| ==> IsSettled(metadata, picked, rows[i])
      {
        var r := pending[k];
        assert IsCandidate(old(rows), r);
        if r.call.value in metadata {
          var amount := metadata[r.call.value];
          var _ := AppendUsageEvent(ChargeRow(r.call.value, r.purpose, amount));
          ghost var u := Settle(t, r, amount);
          SettleStep(calls, t, r, metadata, picked);
          run, t := run + [u], u;
        }
      }
      PassDone(old(rows), rows, metadata, picked);
    }
  }

  /** A picked row has every older candidate picked with it. */
  ghost predicate OldestPicked(rows: seq<Row>, picked: seq<Row>) {
    forall i, j :: 0 <= i < j < |rows| && rows[j] in picked && IsCandidate(rows, rows[i]) ==> rows[i] in picked
  }

  /** After the pass every picked call with a known amount is charged with it. */
  lemma PassDone(before: seq<Row>, after: seq<Row>, metadata: map<string, int>, picked: seq<Row>)
    requires before <= after && forall r <- picked :: IsCandidate(before, r)
    requires forall n :: 0 <= n < |picked| ==> picked[n].call.Some? && (picked[n].call.value in metadata ==> Charged(after, picked[n].call.value))
    requires forall i :: |before| <= i < |after| ==> IsSettled(metadata, picked, after[i])
    ensures forall r <- picked :: IsCandidate(before, r) && (r.call.value in metadata ==> ChargedWith(after, r.call.value, metadata[r.call.value]))
  {
    hide Charged, ChargedWith, IsSettled;
    forall r | r in picked && r.call.value in metadata
      ensures ChargedWith(after, r.call.value, metadata[r.call.value])
    {
      var n :| 0 <= n < |picked| && picked[n] == r;
      NewCharge(before, after, metadata, picked, r.call.value);
    }
  }

  /** Settling one candidate: its call is charged, and a row that is added is its charge. */
  lemma SettleStep(calls: Calls, t: State, r: Row, metadata: map<string, int>, picked: seq<Row>)
    requires Inv(calls, t) && r in t.pass && r in picked && r.call.Some? && r.call.value in metadata
    ensures var u := Settle(t, r, metadata[r.call.value]);
            && Next(calls, t, u) && Inv(calls, u) && u.pass == t.pass && t.rows <= u.rows
            && u.rows == Append(t.rows, ChargeRow(r.call.value, r.purpose, metadata[r.call.value]))
            && Charged(u.rows, r.call.value) && (forall g :: Charged(t.rows, g) ==> Charged(u.rows, g))
            && (forall i :: |t.rows| <= i < |u.rows| ==> IsSettled(metadata, picked, u.rows[i]))
  {
    hide Key, Inv, Next, Charged, HasKey;
    var amount := metadata[r.call.value];
    var u := Settle(t, r, amount);
    Settles(calls, t, r, amount);
    PassRow(calls, t, r);
    AppendTraces(calls, t, r.call.value, Charge, amount);
    ChargedStays(t.rows, u.rows);
    ChargeSpelled(r, amount);
    assert IsSettled(metadata, picked, SettledRow(r, amount));
  }

  lemma HasUniqueKeys(calls: Calls, s: State)
    requires Inv(calls, s)
    ensures UniqueKeys(s.rows)
  {
  }

  /** The charge that settles a candidate, spelled out. */
  function SettledRow(r: Row, amount: int): Row
    requires r.call.Some?
  {
    Row(r.call.value + ":" + r.purpose + ":" + "reconciled-charge", Charge, r.purpose, amount, r.call)
  }

  lemma ChargeSpelled(r: Row, amount: int)
    requires r.call.Some?
    ensures ChargeRow(r.call.value, r.purpose, amount) == SettledRow(r, amount)
  {
  }

  /** A charge of a picked call with the amount the provider named for that call. */
  ghost predicate IsSettled(metadata: map<string, int>, picked: seq<Row>, row: Row) {
    exists r <- picked :: r.call.Some? && r.call.value in metadata && row == SettledRow(r, metadata[r.call.value])
  }

  ghost predicate ChargedWith(rows: seq<Row>, g: string, amount: int) {
    exists i :: 0 <= i < |rows| && rows[i].kind.Charge? && rows[i].call == Some(g) && rows[i].amount == amount
  }

  lemma ChargedAmong(rows: seq<Row>, i: int, g: string)
    ensures 0 <= i < |rows| && rows[i].kind.Charge? && rows[i].call == Some(g) ==> Charged(rows, g)
  {
  }

  lemma NewCharge(before: seq<Row>, after: seq<Row>, metadata: map<string, int>, picked: seq<Row>, g: string)
    requires before <= after && !Charged(before, g) && Charged(after, g) && g in metadata
    requires forall i :: |before| <= i < |after| ==> IsSettled(metadata, picked, after[i])
    ensures ChargedWith(after, g, metadata[g])
  {
    var i :| 0 <= i < |after| && after[i].kind.Charge? && after[i].call == Some(g);
    if i < |before| {
      ChargedAmong(before, i, g);
    }
    assert IsSettled(metadata, picked, after[i]);
  }

  lemma ChargedSnoc(rows: seq<Row>, r: Row)
    ensures forall g :: Charged(rows + [r], g) <==> Charged(rows, g) || (r.kind.Charge? && r.call == Some(g))
  {
    forall g
      ensures Charged(rows + [r], g) <==> Charged(rows, g) || (r.kind.Charge? && r.call == Some(g))
    {
      var all := rows + [r];
      assert all[|rows|] == r;
      assert forall i :: 0 <= i < |rows| ==> all[i] == rows[i];
    }
  }

  lemma ChargedStays(before: seq<Row>, after: seq<Row>)
    requires before <= after
    ensures forall g :: Charged(before, g) ==> Charged(after, g)
  {
    forall g | Charged(before, g)
      ensures Charged(after, g)
    {
      var i :| 0 <= i < |before| && before[i].kind.Charge? && before[i].call == Some(g);
      assert after[i] == before[i];
    }
  }

  lemma PicksCandidates(calls: Calls, s: State, t: State)
    requires Inv(calls, s) && t == s.(pass := t.pass) && forall r <- t.pass :: IsCandidate(s.rows, r)
    ensures Next(calls, s, t) && Inv(calls, t)
  {
    hide Inv;
    assert Next(calls, s, t);
    NextKeeps(calls, s, t);
  }

  lemma Settles(calls: Calls, s: State, r: Row, amount: int)
    requires Inv(calls, s) && r in s.pass && r.call.Some?
    ensures Next(calls, s, Settle(s, r, amount)) && Inv(calls, Settle(s, r, amount))
  {
    hide Inv;
    NextKeeps(calls, s, Settle(s, r, amount));
  }
}
