/**
 Context compaction (src/oveo/generation.py, src/oveo/provider.py): the token test, the binary search and the chat
 summary rounds. Whether a request fits its budget, and what the provider answers, are given as functions.
 */
module Compaction {
  import opened GenerationStatus
  import Decoder

  // ----- the token test -----

  type Text = seq<nat>

  datatype ProviderMessage = ProviderMessage(role: Text, content: Text)

  /** `count_input_tokens` */
  function InputTokens(tokens: Text -> nat, messages: seq<ProviderMessage>): nat {
    if messages == [] then 3
    else
      var last := messages[|messages| - 1];
      InputTokens(tokens, messages[..|messages| - 1]) + 4 + tokens(last.role) + tokens(last.content)
  }

  /** `input_tokens_upper_bound` */
  function UpperBound(messages: seq<ProviderMessage>): nat {
    if messages == [] then 3
    else
      var last := messages[|messages| - 1];
      UpperBound(messages[..|messages| - 1]) + 4 + Decoder.TextBytes(last.role) + Decoder.TextBytes(last.content)
  }

  /** Every token covers at least one byte. */
  ghost predicate TokensCoverBytes(tokens: Text -> nat) {
    forall text :: tokens(text) <= Decoder.TextBytes(text)
  }

  lemma {:induction false} BoundHolds(tokens: Text -> nat, messages: seq<ProviderMessage>)
    requires TokensCoverBytes(tokens)
    ensures InputTokens(tokens, messages) <= UpperBound(messages)
  {
    if messages != [] {
      BoundHolds(tokens, messages[..|messages| - 1]);
    }
  }

  /** `_snapshot_fits`: the shortcut through the byte bound never changes the answer. */
  method SnapshotFits(tokens: Text -> nat, messages: seq<ProviderMessage>, budget: nat) returns (fits: bool)
    requires TokensCoverBytes(tokens)
    ensures fits <==> InputTokens(tokens, messages) <= budget
  {
    BoundHolds(tokens, messages);
    if UpperBound(messages) <= budget {
      return true;
    }
    var total := 3;
    for k := 0 to |messages|
      invariant total == InputTokens(tokens, messages[..k])
    {
      assert messages[..k + 1][..k] == messages[..k];
      total := total + 4;
      total := total + tokens(messages[k].role);
      total := total + tokens(messages[k].content);
    }
    assert messages[..|messages|] == messages;
    return total <= budget;
  }

  // ----- the binary search -----

  /** If a longer prefix fits, so does a shorter one. */
  ghost predicate Monotone(fits: int -> bool, start: int, end: int) {
    forall i, j :: start <= i <= j < end && fits(j) ==> fits(i)
  }

  /**
   The search of `_largest_bounded_summary_snapshot` and `_compact_handoff_context`. Its answer fits and its
   successor does not, whatever the sizes; with monotone sizes it is the largest that fits.
   */
  method LargestFitting(fits: int -> bool, start: nat, end: nat) returns (best: Option<nat>)
    ensures best.None? && start < end ==> !fits(start)
    ensures best.Some? ==> start <= best.value < end && fits(best.value) && (best.value + 1 < end ==> !fits(best.value + 1))
    ensures Monotone(fits, start, end) ==> forall i :: start <= i < end ==> (fits(i) <==> best.Some? && i <= best.value)
    ensures start >= end ==> best.None?
  {
    best := None;
    var low, high := start as int, end as int - 1;
    while low <= high
      invariant start <= low <= high + 1 || (low == start && start >= end)
      invariant high < end
      invariant high == end - 1 || (start <= high + 1 < end && !fits(high + 1))
      invariant best.None? ==> low == start
      invariant best.Some? ==> best.value == low - 1 && start <= best.value < end && fits(best.value)
      decreases high - low + 1
    {
      var middle := (low + high) / 2;
      if fits(middle) {
        best := Some(middle);
        low := middle + 1;
      } else {
        high := middle - 1;
      }
    }
  }

  // ----- chat rounds -----

  const MIN_RECENT := 4

  predicate Increasing(s: seq<nat>) {
    forall i, j :: 0 <= i < j < |s| ==> s[i] < s[j]
  }

  /** The ordinals past `through`. */
  function After(ordinals: seq<nat>, through: nat): seq<nat> {
    if ordinals == [] then []
    else
      var last := ordinals[|ordinals| - 1];
      After(ordinals[..|ordinals| - 1], through) + if last > through then [last] else []
  }

  lemma {:induction false} SplitAt(ordinals: seq<nat>, through: nat, n: nat)
    requires n <= |ordinals| && (forall i :: 0 <= i < n ==> ordinals[i] <= through)
    requires forall i :: n <= i < |ordinals| ==> ordinals[i] > through
    ensures After(ordinals, through) == ordinals[n..]
  {
    if ordinals != [] {
      var init := ordinals[..|ordinals| - 1];
      SplitAt(init, through, if n == |ordinals| then n - 1 else n);
    }
  }

  lemma {:induction false} SplitPoint(ordinals: seq<nat>, through: nat) returns (n: nat)
    requires Increasing(ordinals)
    ensures n <= |ordinals| && (forall i :: 0 <= i < n ==> ordinals[i] <= through)
    ensures forall i :: n <= i < |ordinals| ==> ordinals[i] > through
  {
    if ordinals == [] {
      n := 0;
    } else {
      var last := ordinals[|ordinals| - 1];
      if last <= through {
        n := |ordinals|;
      } else {
        n := SplitPoint(ordinals[..|ordinals| - 1], through);
      }
    }
  }

  /** For ordinals in order, the ones past `through` are a suffix. */
  lemma AfterIsSuffix(ordinals: seq<nat>, through: nat)
    requires Increasing(ordinals)
    ensures var a := After(ordinals, through); var n := |ordinals| - |a|;
            && 0 <= n && a == ordinals[n..]
            && (forall i :: 0 <= i < n ==> ordinals[i] <= through)
            && (forall i :: n <= i < |ordinals| ==> ordinals[i] > through)
  {
    hide After;
    var n := SplitPoint(ordinals, through);
    SplitAt(ordinals, through, n);
  }

  /** Ordinals past a member of the list start right behind it. */
  lemma AfterMember(ordinals: seq<nat>, k: nat)
    requires Increasing(ordinals) && k < |ordinals|
    ensures After(ordinals, ordinals[k]) == ordinals[k + 1..]
  {
    SplitAt(ordinals, ordinals[k], k + 1);
  }

  /** What the provider and the tokenizer answer during chat compaction. */
  datatype ChatAnswers = ChatAnswers(
    requestFits: (string, nat) -> bool,                 // the chat request, with this summary through this ordinal
    floorFits: int -> bool,                             // the request that keeps only what follows this ordinal
    summaryFits: (string, nat, nat) -> bool,            // a summary request through a cutoff
    summarize: (string, nat, nat) -> Option<string>)    // None: the call failed or the generation ended

  /** One round: the summary it started from and the ordinals it moved between. */
  datatype Round = Round(summary: string, reached: nat, cutoff: nat)

  /** How many of the unsummarized messages a round leaves alone. */
  function Retain(unsummarized: nat, keepRecent: nat): nat {
    if unsummarized > keepRecent then keepRecent else MIN_RECENT
  }

  /**
   A round takes a prefix of the unsummarized messages before the retained ones; its summary request fits and
   the request for one message more does not.
   */
  ghost predicate IsRound(a: ChatAnswers, ordinals: seq<nat>, keepRecent: nat, r: Round) {
    var u := After(ordinals, r.reached);
    var n := |u| - Retain(|u|, keepRecent);
    && |u| > MIN_RECENT && a.summaryFits(r.summary, r.reached, r.cutoff)
    && exists k :: 0 <= k < n && u[k] == r.cutoff && (k + 1 < n ==> !a.summaryFits(r.summary, r.reached, u[k + 1]))
  }

  /** Rounds lead from one summary to another: each starts where the one before ended and moves strictly forward. */
  ghost predicate Leads(a: ChatAnswers, ordinals: seq<nat>, keepRecent: nat, summary: string, through: nat,
                        rounds: seq<Round>, summary': string, through': nat)
  {
    if rounds == [] then summary' == summary && through' == through
    else
      var r := rounds[|rounds| - 1];
      && Leads(a, ordinals, keepRecent, summary, through, rounds[..|rounds| - 1], r.summary, r.reached)
      && r.reached < r.cutoff == through' && IsRound(a, ordinals, keepRecent, r)
      && !a.requestFits(r.summary, r.reached)
      && a.summarize(r.summary, r.reached, r.cutoff) == Some(summary')
  }

  lemma LeadsOn(a: ChatAnswers, ordinals: seq<nat>, keepRecent: nat, summary: string, through: nat, rounds: seq<Round>, r: Round, summary': string)
    requires Leads(a, ordinals, keepRecent, summary, through, rounds, r.summary, r.reached) && r.reached < r.cutoff
    requires IsRound(a, ordinals, keepRecent, r) && !a.requestFits(r.summary, r.reached)
    requires a.summarize(r.summary, r.reached, r.cutoff) == Some(summary')
    ensures Leads(a, ordinals, keepRecent, summary, through, rounds + [r], summary', r.cutoff)
  {
    hide IsRound;
    assert (rounds + [r])[..|rounds|] == rounds;
  }

  /** Compaction is stuck: the request does not fit and no further round is possible. */
  ghost predicate Blocked(a: ChatAnswers, ordinals: seq<nat>, keepRecent: nat, summary: string, through: nat) {
    var u := After(ordinals, through);
    && !a.requestFits(summary, through)
    && (|u| <= MIN_RECENT || !a.summaryFits(summary, through, u[0]) || SummaryFailed(a, ordinals, keepRecent, summary, through))
  }

  ghost predicate SummaryFailed(a: ChatAnswers, ordinals: seq<nat>, keepRecent: nat, summary: string, through: nat) {
    exists cutoff :: IsRound(a, ordinals, keepRecent, Round(summary, through, cutoff)) && a.summarize(summary, through, cutoff).None?
  }

  /** Just before the four newest unsummarized messages. */
  function Floor(ordinals: seq<nat>, through: nat): int {
    var u := After(ordinals, through);
    if u == [] then through as int
    else if |u| <= MIN_RECENT then u[0] as int - 1
    else u[|u| - MIN_RECENT] as int - 1
  }

  /** The floor keeps exactly the four newest unsummarized messages, or all of them if there are fewer. */
  lemma FloorKeepsNewest(ordinals: seq<nat>, through: nat)
    requires Increasing(ordinals) && (forall o <- ordinals :: o >= 1)
    ensures var u := After(ordinals, through);
            && Floor(ordinals, through) >= 0
            && (u != [] ==> After(ordinals, Floor(ordinals, through)) == if |u| <= MIN_RECENT then u else u[|u| - MIN_RECENT..])
  {
    hide After;
    var u := After(ordinals, through);
    if u != [] {
      AfterIsSuffix(ordinals, through);
      var first := if |u| <= MIN_RECENT then 0 else |u| - MIN_RECENT;
      var n := |ordinals| - |u| + first;
      assert u[first] == ordinals[n] && ordinals[n] in ordinals;
      AfterBefore(ordinals, n);
    }
  }

  /** A conversation's summary and the ordinal it reaches; 0 when there is none. */
  class Conversation {
    var summary: string
    var through: nat

    constructor (summary: string, through: nat)
      ensures this.summary == summary && this.through == through
    {
      this.summary, this.through := summary, through;
    }

    /** The ordinal after which `_require_compactable_floor` starts. */
    method FloorAfter(ordinals: seq<nat>) returns (floor: int)
      ensures floor == Floor(ordinals, through)
    {
      hide After;
      var recent := After(ordinals, through);
      if |recent| > MIN_RECENT {
        recent := recent[|recent| - MIN_RECENT..];
      }
      return if recent == [] then through as int else recent[0] as int - 1;
    }

    /**
     `_compact_chat_context`: the rounds strictly advance, so their number is bounded by the messages summarized; at
     least four messages are never summarized. It succeeds with a request that fits, and fails only on the floor or
     when no further round is possible.
     */
    method CompactChat(ordinals: seq<nat>, keepRecent: nat, a: ChatAnswers) returns (ok: bool, ghost rounds: seq<Round>)
      requires Increasing(ordinals) && (forall o <- ordinals :: o >= 1) && keepRecent >= MIN_RECENT
      modifies this
      ensures ok ==> a.requestFits(summary, through)
      ensures !ok ==> Blocked(a, ordinals, keepRecent, summary, through) || (rounds == [] && !a.floorFits(Floor(ordinals, through)))
      ensures Leads(a, ordinals, keepRecent, old(summary), old(through), rounds, summary, through)
      ensures rounds != [] ==> through in ordinals && |After(ordinals, through)| >= MIN_RECENT
      ensures |rounds| + |After(ordinals, through)| <= |After(ordinals, old(through))|
    {
      hide After, Leads, IsRound, Floor;
      rounds := [];
      NoRounds(a, ordinals, keepRecent, summary, through);
      var floor := FloorAfter(ordinals);
      if !a.floorFits(floor) {
        return false, rounds;
      }
      while !a.requestFits(summary, through)
        invariant Leads(a, ordinals, keepRecent, old(summary), old(through), rounds, summary, through)
        invariant rounds != [] ==> through in ordinals && |After(ordinals, through)| >= MIN_RECENT
        invariant |rounds| + |After(ordinals, through)| <= |After(ordinals, old(through))|
        decreases |After(ordinals, through)|
      {
        var unsummarized := After(ordinals, through);
        if |unsummarized| <= MIN_RECENT {
          return false, rounds;
        }
        var retain := if |unsummarized| > keepRecent then keepRecent else MIN_RECENT;
        var candidates := unsummarized[..|unsummarized| - retain];
        var before, reached := summary, through;
        var best := LargestFitting(i => 0 <= i < |candidates| && a.summaryFits(before, reached, candidates[i]), 0, |candidates|);
        if best.None? {
          return false, rounds;
        }
        var cutoff := candidates[best.value];
        RoundIs(a, ordinals, keepRecent, Round(summary, through, cutoff), best.value);
        var compacted := a.summarize(before, reached, cutoff);
        if compacted.None? {
          return false, rounds;
        }
        RoundAdvances(ordinals, through, best.value);
        LeadsOn(a, ordinals, keepRecent, old(summary), old(through), rounds, Round(summary, through, cutoff), compacted.value);
        rounds := rounds + [Round(summary, through, cutoff)];
        summary, through := compacted.value, cutoff;
      }
      return true, rounds;
    }
  }

  lemma RoundIs(a: ChatAnswers, ordinals: seq<nat>, keepRecent: nat, r: Round, k: nat)
    requires var u := After(ordinals, r.reached);
             var n := |u| - Retain(|u|, keepRecent);
             && |u| > MIN_RECENT && a.summaryFits(r.summary, r.reached, r.cutoff)
             && k < n && u[k] == r.cutoff && (k + 1 < n ==> !a.summaryFits(r.summary, r.reached, u[k + 1]))
    ensures IsRound(a, ordinals, keepRecent, r)
  {
    hide After;
  }

  lemma NoRounds(a: ChatAnswers, ordinals: seq<nat>, keepRecent: nat, summary: string, through: nat)
    ensures Leads(a, ordinals, keepRecent, summary, through, [], summary, through)
  {
  }

  lemma AfterBefore(ordinals: seq<nat>, n: nat)
    requires Increasing(ordinals) && n < |ordinals| && ordinals[n] >= 1
    ensures After(ordinals, ordinals[n] - 1) == ordinals[n..]
  {
    SplitAt(ordinals, ordinals[n] - 1, n);
  }

  /** Summarizing through an unsummarized message leaves exactly the later ones. */
  lemma RoundAdvances(ordinals: seq<nat>, through: nat, k: nat)
    requires Increasing(ordinals) && k < |After(ordinals, through)|
    ensures var u := After(ordinals, through);
            u[k] > through && u[k] in ordinals && After(ordinals, u[k]) == u[k + 1..]
  {
    var u := After(ordinals, through);
    AfterIsSuffix(ordinals, through);
    var n := |ordinals| - |u|;
    assert u[k] == ordinals[n + k];
    AfterMember(ordinals, n + k);
  }
}
