/**
 Compacting a conversation for a prompt handoff (`_compact_handoff_context` and `_bounded_handoff_groups`,
 src/oveo/generation.py): user turns are cut into chunks, each chunk becomes an extract, extracts are merged.
 */
module Handoff {
  import opened GenerationStatus
  import opened Compaction

  // ----- handoff chunks -----

  /** A chunk of user turns: those after `after` up to `through`. */
  datatype Chunk = Chunk(after: Option<nat>, through: nat)

  function Turns(ordinals: seq<nat>, c: Chunk): seq<nat> {
    if ordinals == [] then []
    else
      var last := ordinals[|ordinals| - 1];
      Turns(ordinals[..|ordinals| - 1], c)
      + if (c.after.None? || last > c.after.value) && last <= c.through then [last] else []
  }

  function AllTurns(ordinals: seq<nat>, chunks: seq<Chunk>): seq<nat> {
    if chunks == [] then []
    else AllTurns(ordinals, chunks[..|chunks| - 1]) + Turns(ordinals, chunks[|chunks| - 1])
  }

  lemma {:induction false} TurnsAre(ordinals: seq<nat>, start: nat, end: nat)
    requires Increasing(ordinals) && start <= end < |ordinals|
    ensures Turns(ordinals, ChunkOf(ordinals, start, end)) == ordinals[start..end + 1]
  {
    TurnsUpTo(ordinals, start, end, |ordinals|);
    assert ordinals[..|ordinals|] == ordinals;
  }

  function ChunkOf(ordinals: seq<nat>, start: nat, end: nat): Chunk
    requires start <= end < |ordinals|
  {
    Chunk(if start == 0 then None else Some(ordinals[start - 1]), ordinals[end])
  }

  lemma {:induction false} TurnsUpTo(ordinals: seq<nat>, start: nat, end: nat, k: nat)
    requires Increasing(ordinals) && start <= end < |ordinals| && k <= |ordinals|
    ensures Turns(ordinals[..k], ChunkOf(ordinals, start, end))
         == if k <= start then [] else if k <= end + 1 then ordinals[start..k] else ordinals[start..end + 1]
  {
    if k > 0 {
      TurnsUpTo(ordinals, start, end, k - 1);
      var c, last := ChunkOf(ordinals, start, end), ordinals[k - 1];
      TurnsSnoc(ordinals, c, k);
      InChunk(ordinals, start, end, k - 1);
      hide Turns, Increasing;
      assert start < k <= end + 1 ==> ordinals[start..k] == ordinals[start..k - 1] + [last];
    }
  }

  predicate Includes(c: Chunk, o: nat) {
    (c.after.None? || o > c.after.value) && o <= c.through
  }

  lemma TurnsSnoc(ordinals: seq<nat>, c: Chunk, k: nat)
    requires 0 < k <= |ordinals|
    ensures Turns(ordinals[..k], c) == Turns(ordinals[..k - 1], c) + if Includes(c, ordinals[k - 1]) then [ordinals[k - 1]] else []
  {
    assert ordinals[..k][..k - 1] == ordinals[..k - 1];
  }

  lemma InChunk(ordinals: seq<nat>, start: nat, end: nat, i: nat)
    requires Increasing(ordinals) && start <= end < |ordinals| && i < |ordinals|
    ensures Includes(ChunkOf(ordinals, start, end), ordinals[i]) <==> start <= i <= end
  {
    if start > 0 {
      assert start <= i ==> ordinals[start - 1] < ordinals[i];
      assert i < start ==> ordinals[i] <= ordinals[start - 1];
    }
    assert i <= end ==> ordinals[i] <= ordinals[end];
    assert i > end ==> ordinals[i] > ordinals[end];
  }

  /** The chunk that one turn makes on its own. */
  function OneTurn(ordinals: seq<nat>, k: nat): Chunk
    requires k < |ordinals|
  {
    ChunkOf(ordinals, k, k)
  }

  /** A chunk that fits still fits with fewer turns. */
  ghost predicate Shrinks(ordinals: seq<nat>, fits: Chunk -> bool) {
    forall i: nat, k: nat, l: nat, j: nat :: i <= k <= l <= j < |ordinals| && fits(ChunkOf(ordinals, i, j)) ==> fits(ChunkOf(ordinals, k, l))
  }

  ghost predicate EachFits(chunks: seq<Chunk>, fits: Chunk -> bool) {
    forall k :: 0 <= k < |chunks| ==> fits(chunks[k])
  }

  ghost predicate SomeTurnTooLarge(ordinals: seq<nat>, fits: Chunk -> bool) {
    exists k :: 0 <= k < |ordinals| && !fits(OneTurn(ordinals, k))
  }

  /** The chunk of turns a .. b - 1. */
  ghost predicate IsCut(ordinals: seq<nat>, c: Chunk, a: nat, b: nat) {
    a < b <= |ordinals| && c == ChunkOf(ordinals, a, b - 1)
  }

  /** Chunk i covers turns cuts[i] .. cuts[i + 1] - 1. */
  ghost predicate CutAt(ordinals: seq<nat>, chunks: seq<Chunk>, cuts: seq<nat>) {
    && |cuts| == |chunks| + 1 && cuts[0] == 0
    && forall i {:trigger chunks[i]} :: 0 <= i < |chunks| ==> IsCut(ordinals, chunks[i], cuts[i], cuts[i + 1])
  }

  ghost predicate CannotGrow(ordinals: seq<nat>, a: nat, b: nat, fits: Chunk -> bool) {
    a <= b < |ordinals| ==> !fits(ChunkOf(ordinals, a, b))
  }

  /** No chunk could have taken the next turn too. */
  ghost predicate Farthest(ordinals: seq<nat>, chunks: seq<Chunk>, cuts: seq<nat>, fits: Chunk -> bool)
    requires |cuts| == |chunks| + 1
  {
    forall i {:trigger chunks[i]} :: 0 <= i < |chunks| ==> CannotGrow(ordinals, cuts[i], cuts[i + 1], fits)
  }

  /** Consecutive cuts hold every turn before the last cut once, in order. */
  lemma {:induction false} CutsCover(ordinals: seq<nat>, chunks: seq<Chunk>, cuts: seq<nat>)
    requires Increasing(ordinals) && CutAt(ordinals, chunks, cuts)
    ensures cuts[|chunks|] <= |ordinals| && AllTurns(ordinals, chunks) == ordinals[..cuts[|chunks|]]
    ensures forall k :: 0 <= k < |chunks| ==> Turns(ordinals, chunks[k]) != []
  {
    hide Turns, Increasing;
    if chunks != [] {
      var n := |chunks| - 1;
      var c := chunks[..n];
      CutsCover(ordinals, c, cuts[..n + 1]);
      assert IsCut(ordinals, chunks[n], cuts[n], cuts[n + 1]);
      TurnsAre(ordinals, cuts[n], cuts[n + 1] - 1);
      assert ordinals[..cuts[n]] + ordinals[cuts[n]..cuts[n + 1]] == ordinals[..cuts[n + 1]];
      assert forall k :: 0 <= k < n ==> chunks[k] == c[k];
    }
  }

  /**
   The chunking loop of `_compact_handoff_context`: the chunks hold every user turn exactly once and in order, and
   each fits; it gives up only because one turn is too large on its own.
   */
  method HandoffChunks(ordinals: seq<nat>, fits: Chunk -> bool) returns (r: Option<seq<Chunk>>, ghost cuts: seq<nat>)
    requires Increasing(ordinals)
    ensures r.None? ==> SomeTurnTooLarge(ordinals, fits)
    ensures r.Some? ==> AllTurns(ordinals, r.value) == ordinals && EachFits(r.value, fits)
    ensures r.Some? ==> forall k :: 0 <= k < |r.value| ==> Turns(ordinals, r.value[k]) != []
    ensures r.Some? ==> CutAt(ordinals, r.value, cuts) && cuts[|r.value|] == |ordinals|
    ensures r.Some? ==> Farthest(ordinals, r.value, cuts, fits)
  {
    hide Turns, AllTurns, Increasing, Farthest;
    var chunks: seq<Chunk> := [];
    cuts := [0];
    var start := 0;
    var after: Option<nat> := None;
    NothingCut(ordinals, fits);
    while start < |ordinals|
      invariant start <= |ordinals| && after == (if start == 0 then None else Some(ordinals[start - 1]))
      invariant EachFits(chunks, fits)
      invariant CutAt(ordinals, chunks, cuts) && cuts[|chunks|] == start
      invariant Farthest(ordinals, chunks, cuts, fits)
    {
      var from := after;
      var best := LargestFitting(i => 0 <= i < |ordinals| && fits(Chunk(from, ordinals[i])), start, |ordinals|);
      if best.None? {
        assert !fits(OneTurn(ordinals, start));
        return None, [];
      }
      var end := best.value;
      CutSnoc(ordinals, chunks, cuts, fits, end);
      chunks := chunks + [Chunk(after, ordinals[end])];
      cuts := cuts + [end + 1];
      after := Some(ordinals[end]);
      start := end + 1;
    }
    CutsCover(ordinals, chunks, cuts);
    assert ordinals[..start] == ordinals;
    return Some(chunks), cuts;
  }

  lemma NothingCut(ordinals: seq<nat>, fits: Chunk -> bool)
    ensures Farthest(ordinals, [], [0], fits)
  {
  }

  lemma CutSnoc(ordinals: seq<nat>, chunks: seq<Chunk>, cuts: seq<nat>, fits: Chunk -> bool, end: nat)
    requires CutAt(ordinals, chunks, cuts) && Farthest(ordinals, chunks, cuts, fits) && cuts[|chunks|] <= end < |ordinals|
    requires end + 1 < |ordinals| ==> !fits(ChunkOf(ordinals, cuts[|chunks|], end + 1))
    ensures CutAt(ordinals, chunks + [ChunkOf(ordinals, cuts[|chunks|], end)], cuts + [end + 1])
    ensures Farthest(ordinals, chunks + [ChunkOf(ordinals, cuts[|chunks|], end)], cuts + [end + 1], fits)
  {
    var more, next := chunks + [ChunkOf(ordinals, cuts[|chunks|], end)], cuts + [end + 1];
    forall i | 0 <= i < |more|
      ensures IsCut(ordinals, more[i], next[i], next[i + 1]) && CannotGrow(ordinals, next[i], next[i + 1], fits)
    {
      if i < |chunks| {
        assert more[i] == chunks[i] && next[i] == cuts[i] && next[i + 1] == cuts[i + 1];
      }
    }
  }

  lemma {:induction false} CutHolding(ordinals: seq<nat>, chunks: seq<Chunk>, cuts: seq<nat>, n: nat, k: nat) returns (i: nat)
    requires CutAt(ordinals, chunks, cuts) && n <= |chunks| && k < cuts[n]
    ensures i < n && cuts[i] <= k < cuts[i + 1]
    decreases n
  {
    if k < cuts[n - 1] {
      i := CutHolding(ordinals, chunks, cuts, n - 1, k);
    } else {
      i := n - 1;
    }
  }

  /** With sizes that shrink with the turns, chunking succeeds exactly when every turn fits on its own. */
  lemma ChunksNeedEveryTurn(ordinals: seq<nat>, chunks: seq<Chunk>, cuts: seq<nat>, fits: Chunk -> bool)
    requires Shrinks(ordinals, fits) && CutAt(ordinals, chunks, cuts) && cuts[|chunks|] == |ordinals| && EachFits(chunks, fits)
    ensures !SomeTurnTooLarge(ordinals, fits)
  {
    hide Shrinks;
    forall k | 0 <= k < |ordinals|
      ensures fits(OneTurn(ordinals, k))
    {
      var i := CutHolding(ordinals, chunks, cuts, |chunks|, k);
      assert fits(chunks[i]);
      Narrower(ordinals, fits, cuts[i], k, k, cuts[i + 1] - 1);
    }
  }

  lemma Narrower(ordinals: seq<nat>, fits: Chunk -> bool, i: nat, k: nat, l: nat, j: nat)
    requires Shrinks(ordinals, fits) && i <= k <= l <= j < |ordinals| && fits(ChunkOf(ordinals, i, j))
    ensures fits(ChunkOf(ordinals, k, l))
  {
  }

  lemma {:induction false} GreedyIsAhead(ordinals: seq<nat>, fits: Chunk -> bool, chunks: seq<Chunk>, cuts: seq<nat>,
                                         others: seq<Chunk>, theirs: seq<nat>, i: nat)
    requires Shrinks(ordinals, fits) && CutAt(ordinals, chunks, cuts) && Farthest(ordinals, chunks, cuts, fits)
    requires CutAt(ordinals, others, theirs) && EachFits(others, fits)
    requires i <= |chunks| && i <= |others|
    ensures theirs[i] <= cuts[i]
  {
    hide Shrinks;
    if i > 0 {
      var k := i - 1;
      GreedyIsAhead(ordinals, fits, chunks, cuts, others, theirs, k);
      assert fits(others[k]) && IsCut(ordinals, others[k], theirs[k], theirs[i]);
      assert IsCut(ordinals, chunks[k], cuts[k], cuts[i]) && CannotGrow(ordinals, cuts[k], cuts[i], fits);
      if cuts[i] < theirs[i] {
        Narrower(ordinals, fits, theirs[k], cuts[k], cuts[i], theirs[i] - 1);
      }
    }
  }

  /** With such sizes no other way to cut the turns into fitting chunks needs fewer provider calls. */
  lemma FewestChunks(ordinals: seq<nat>, fits: Chunk -> bool, chunks: seq<Chunk>, cuts: seq<nat>,
                     others: seq<Chunk>, theirs: seq<nat>)
    requires Shrinks(ordinals, fits) && CutAt(ordinals, chunks, cuts) && Farthest(ordinals, chunks, cuts, fits)
    requires CutAt(ordinals, others, theirs) && EachFits(others, fits) && theirs[|others|] == |ordinals|
    ensures |chunks| <= |others|
  {
    hide Shrinks, Farthest;
    if |others| < |chunks| {
      assert IsCut(ordinals, chunks[|others|], cuts[|others|], cuts[|others| + 1]);
      GreedyIsAhead(ordinals, fits, chunks, cuts, others, theirs, |others|);
    }
  }

  // ----- merging extracts -----

  function Flatten<T>(groups: seq<seq<T>>): seq<T> {
    if groups == [] then [] else Flatten(groups[..|groups| - 1]) + groups[|groups| - 1]
  }

  /** Every group fits, except that an extract left alone is not measured again. */
  ghost predicate Bounded(groups: seq<seq<string>>, fits: seq<string> -> bool) {
    forall k :: 0 <= k < |groups| ==> groups[k] != [] && (fits(groups[k]) || (k > 0 && |groups[k]| == 1))
  }

  /** The finished groups and the one being filled. */
  datatype Grouping = Grouping(groups: seq<seq<string>>, current: seq<string>)

  function GroupStep(g: Grouping, extract: string, fits: seq<string> -> bool): Option<Grouping> {
    if fits(g.current + [extract]) then Some(Grouping(g.groups, g.current + [extract]))
    else if g.current == [] then None
    else Some(Grouping(g.groups + [g.current], [extract]))
  }

  function GroupFirst(extracts: seq<string>, fits: seq<string> -> bool, k: nat): Option<Grouping>
    requires k <= |extracts|
  {
    if k == 0 then Some(Grouping([], []))
    else
      var before := GroupFirst(extracts, fits, k - 1);
      if before.None? then None else GroupStep(before.value, extracts[k - 1], fits)
  }

  function Finished(g: Option<Grouping>): Option<seq<seq<string>>> {
    if g.None? then None else Some(if g.value.current == [] then g.value.groups else g.value.groups + [g.value.current])
  }

  /** `_bounded_handoff_groups` */
  method BoundedGroups(extracts: seq<string>, fits: seq<string> -> bool) returns (r: Option<seq<seq<string>>>)
    ensures r == Finished(GroupFirst(extracts, fits, |extracts|))
  {
    var groups: seq<seq<string>> := [];
    var current: seq<string> := [];
    for k := 0 to |extracts|
      invariant GroupFirst(extracts, fits, k) == Some(Grouping(groups, current))
    {
      var candidate := current + [extracts[k]];
      if fits(candidate) {
        current := candidate;
        continue;
      }
      if current == [] {
        NoGroups(extracts, fits, k + 1, |extracts|);
        return None;
      }
      groups := groups + [current];
      current := [extracts[k]];
    }
    if current != [] {
      groups := groups + [current];
    }
    return Some(groups);
  }

  lemma {:induction false} NoGroups(extracts: seq<string>, fits: seq<string> -> bool, k: nat, end: nat)
    requires k <= end <= |extracts| && GroupFirst(extracts, fits, k).None?
    ensures GroupFirst(extracts, fits, end).None?
    decreases end
  {
    if k < end {
      NoGroups(extracts, fits, k, end - 1);
    }
  }

  lemma {:induction false} GroupedFirst(extracts: seq<string>, fits: seq<string> -> bool, k: nat)
    requires k <= |extracts|
    ensures var r := GroupFirst(extracts, fits, k);
            && (r.None? <==> k > 0 && !fits(extracts[..1]))
            && (r.Some? ==>
                  && Flatten(r.value.groups) + r.value.current == extracts[..k] && Bounded(r.value.groups, fits)
                  && (k == 0 <==> r.value.current == []) && (k == 0 ==> r.value.groups == [])
                  && (k > 0 ==> fits(r.value.current) || (r.value.groups != [] && |r.value.current| == 1)))
  {
    if k > 0 {
      GroupedFirst(extracts, fits, k - 1);
      var before := GroupFirst(extracts, fits, k - 1);
      assert extracts[..k] == extracts[..k - 1] + [extracts[k - 1]];
      if before.Some? {
        assert k == 1 ==> before.value.current + [extracts[0]] == extracts[..1];
        FlattenSnoc(before.value.groups, before.value.current);
      }
    }
  }

  /** Groups hold every extract once and in order, and every group of two or more fits. */
  lemma GroupsPartition(extracts: seq<string>, fits: seq<string> -> bool)
    ensures var r := Finished(GroupFirst(extracts, fits, |extracts|));
            && (r.None? <==> extracts != [] && !fits(extracts[..1]))
            && (r.Some? ==> Flatten(r.value) == extracts && Bounded(r.value, fits))
  {
    hide GroupFirst;
    GroupedFirst(extracts, fits, |extracts|);
    assert extracts[..|extracts|] == extracts;
    var g := GroupFirst(extracts, fits, |extracts|);
    if g.Some? {
      FlattenSnoc(g.value.groups, g.value.current);
    }
  }

  lemma FlattenSnoc<T>(groups: seq<seq<T>>, g: seq<T>)
    ensures Flatten(groups + [g]) == Flatten(groups) + g
  {
    assert (groups + [g])[..|groups|] == groups;
  }

  /** No group could have taken the first extract of the next one. */
  ghost predicate Greedy(groups: seq<seq<string>>, fits: seq<string> -> bool) {
    forall k :: 0 <= k < |groups| - 1 ==> CannotTake(groups[k], groups[k + 1], fits)
  }

  ghost predicate CannotTake(group: seq<string>, next: seq<string>, fits: seq<string> -> bool) {
    next != [] && !fits(group + [next[0]])
  }

  lemma {:induction false} GreedyFirst(extracts: seq<string>, fits: seq<string> -> bool, k: nat)
    requires k <= |extracts| && GroupFirst(extracts, fits, k).Some?
    ensures var g := GroupFirst(extracts, fits, k).value;
            && (k > 0 ==> g.current != []) && Greedy(if g.current == [] then g.groups else g.groups + [g.current], fits)
            && (g.current == [] ==> g.groups == [])
  {
    if k > 0 {
      GreedyFirst(extracts, fits, k - 1);
      var g, after := GroupFirst(extracts, fits, k - 1).value, GroupFirst(extracts, fits, k).value;
      if fits(g.current + [extracts[k - 1]]) {
        GreedyLast(g.groups, g.current, after.current, fits);
      } else {
        GreedySnoc(g.groups + [g.current], after.current, fits);
      }
    }
  }

  /** The last group may grow at its end. */
  lemma GreedyLast(groups: seq<seq<string>>, last: seq<string>, more: seq<string>, fits: seq<string> -> bool)
    requires last <= more && (last == [] ==> groups == []) && Greedy(if last == [] then groups else groups + [last], fits)
    ensures Greedy(groups + [more], fits)
  {
    hide CannotTake;
    forall k | 0 <= k < |groups|
      ensures CannotTake((groups + [more])[k], (groups + [more])[k + 1], fits)
    {
      assert CannotTake((groups + [last])[k], (groups + [last])[k + 1], fits);
      SameFirst((groups + [last])[k], (groups + [last])[k + 1], (groups + [more])[k + 1], fits);
    }
  }

  lemma SameFirst(group: seq<string>, next: seq<string>, more: seq<string>, fits: seq<string> -> bool)
    requires CannotTake(group, next, fits) && next <= more
    ensures CannotTake(group, more, fits)
  {
  }

  lemma GreedySnoc(groups: seq<seq<string>>, next: seq<string>, fits: seq<string> -> bool)
    requires Greedy(groups, fits) && groups != [] && CannotTake(groups[|groups| - 1], next, fits)
    ensures Greedy(groups + [next], fits)
  {
    hide CannotTake;
    var all := groups + [next];
    forall k | 0 <= k < |all| - 1
      ensures CannotTake(all[k], all[k + 1], fits)
    {
      assert k < |groups| - 1 ==> CannotTake(groups[k], groups[k + 1], fits);
    }
  }

  /** Each group is filled as far as it goes. */
  lemma GroupsAreGreedy(extracts: seq<string>, fits: seq<string> -> bool)
    ensures var r := Finished(GroupFirst(extracts, fits, |extracts|)); r.Some? ==> Greedy(r.value, fits)
  {
    hide GroupFirst, Greedy;
    if GroupFirst(extracts, fits, |extracts|).Some? {
      GreedyFirst(extracts, fits, |extracts|);
    }
  }

  /** A smaller batch of extracts fits if a larger one does. */
  ghost predicate SubsetsFit(fits: seq<string> -> bool) {
    forall group: seq<string>, k :: 0 <= k < |group| && fits(group) ==> fits([group[k]])
  }

  ghost predicate AllFit(groups: seq<seq<string>>, fits: seq<string> -> bool) {
    forall k :: 0 <= k < |groups| ==> fits(groups[k])
  }

  /** Exactly when all groups fit: every extract must fit alone. The code measures only the first one alone. */
  lemma GroupsFitIffExtractsDo(extracts: seq<string>, groups: seq<seq<string>>, fits: seq<string> -> bool)
    requires SubsetsFit(fits) && Flatten(groups) == extracts && Bounded(groups, fits)
    ensures AllFit(groups, fits) <==> forall e <- extracts :: fits([e])
  {
    forall e | e in extracts
      ensures AllFit(groups, fits) ==> fits([e])
    {
      var k, i := InGroup(groups, e);
      assert AllFit(groups, fits) ==> fits(groups[k]);
      assert groups[k][i] == e;
    }
    forall k | 0 <= k < |groups| && |groups[k]| == 1
      ensures groups[k][0] in extracts && groups[k] == [groups[k][0]]
    {
      GroupIn(groups, k, groups[k][0]);
    }
    assert forall k :: 0 <= k < |groups| && !fits(groups[k]) ==> |groups[k]| == 1;
  }

  lemma {:induction false} InGroup(groups: seq<seq<string>>, e: string) returns (k: nat, i: nat)
    requires e in Flatten(groups)
    ensures k < |groups| && i < |groups[k]| && groups[k][i] == e
  {
    var n := |groups| - 1;
    if e in groups[n] {
      k := n;
      i :| 0 <= i < |groups[n]| && groups[n][i] == e;
    } else {
      k, i := InGroup(groups[..n], e);
    }
  }

  lemma {:induction false} GroupIn(groups: seq<seq<string>>, k: nat, e: string)
    requires k < |groups| && e in groups[k]
    ensures e in Flatten(groups)
  {
    if k < |groups| - 1 {
      GroupIn(groups[..|groups| - 1], k, e);
    }
  }

  predicate Small(group: seq<string>) {
    |Flatten(group)| <= 2
  }

  /** The gap: an oversized extract after the first is sent to the provider as a group of its own. */
  lemma OversizedExtractIsSent()
    ensures Finished(GroupFirst(["a", "b", "ccc"], Small, 3)) == Some([["a", "b"], ["ccc"]])
    ensures !Small(["ccc"]) && |[["a", "b"], ["ccc"]]| < |["a", "b", "ccc"]|
  {
    var extracts := ["a", "b", "ccc"];
    FlattenSnoc<char>([], "a");
    FlattenSnoc<char>(["a"], "b");
    FlattenSnoc<char>(["a", "b"], "ccc");
    FlattenSnoc<char>([], "ccc");
    assert [] + ["a"] == ["a"] && ["a"] + ["b"] == ["a", "b"] && [] + ["ccc"] == ["ccc"];
    assert ["a", "b"] + ["ccc"] == extracts;
    assert GroupFirst(extracts, Small, 1) == Some(Grouping([], ["a"]));
    assert GroupFirst(extracts, Small, 2) == Some(Grouping([], ["a", "b"]));
    assert !Small(extracts) && ([] + [["a", "b"]]) == [["a", "b"]];
    assert GroupFirst(extracts, Small, 3) == Some(Grouping([["a", "b"]], ["ccc"]));
    assert [["a", "b"]] + [["ccc"]] == [["a", "b"], ["ccc"]];
  }

  // ----- the merge loop -----

  /** How an extract came about: from a source chunk, or by merging a group of extracts. */
  datatype Extract = Source(chunk: nat) | Merged(of: seq<Extract>)

  ghost predicate ExtractOf(e: Extract, sources: seq<string>, merge: seq<string> -> Option<string>, text: string) {
    match e
    case Source(i) => i < |sources| && text == sources[i]
    case Merged(of) => exists parts: seq<string> :: MergedFrom(of, parts, sources, merge, text)
  }

  ghost predicate MergedFrom(of: seq<Extract>, parts: seq<string>, sources: seq<string>, merge: seq<string> -> Option<string>, text: string) {
    && |parts| == |of| && merge(parts) == Some(text)
    && forall i :: 0 <= i < |of| ==> ExtractOf(of[i], sources, merge, parts[i])
  }

  /** The source chunks an extract covers, in order. */
  ghost function Chunks(e: Extract): seq<nat> {
    match e
    case Source(i) => [i]
    case Merged(of) => AllChunks(of)
  }

  ghost function AllChunks(es: seq<Extract>): seq<nat> {
    if es == [] then [] else AllChunks(es[..|es| - 1]) + Chunks(es[|es| - 1])
  }

  ghost predicate AllExtracts(es: seq<Extract>, sources: seq<string>, merge: seq<string> -> Option<string>, texts: seq<string>) {
    |texts| == |es| && forall i :: 0 <= i < |es| ==> ExtractOf(es[i], sources, merge, texts[i])
  }

  /** 0, 1, …, n - 1 */
  function UpTo(n: nat): seq<nat> {
    seq(n, i => i)
  }

  /** The merge is stuck: the extracts do not fit, and grouping them fails, does not help, or a merge call fails. */
  ghost predicate Blocked(texts: seq<string>, fits: seq<string> -> bool, merge: seq<string> -> Option<string>) {
    var groups := Finished(GroupFirst(texts, fits, |texts|));
    && !fits(texts)
    && (groups.None? || |groups.value| >= |texts| || MergeFails(groups.value, merge))
  }

  ghost predicate MergeFails(groups: seq<seq<string>>, merge: seq<string> -> Option<string>) {
    exists k :: 0 <= k < |groups| && merge(groups[k]).None?
  }

  /**
   The merge loop of `_compact_handoff_context`. It ends because every round has strictly fewer extracts than the
   one before. The last extracts cover every source chunk exactly once and in order; they fit, or the merge is stuck.
   */
  method MergeExtracts(sources: seq<string>, fits: seq<string> -> bool, merge: seq<string> -> Option<string>)
    returns (r: Option<seq<string>>, ghost last: seq<string>, ghost history: seq<Extract>)
    ensures |last| <= |sources| && AllExtracts(history, sources, merge, last) && AllChunks(history) == UpTo(|sources|)
    ensures r.Some? ==> r.value == last && fits(r.value)
    ensures r.None? ==> Blocked(last, fits, merge)
  {
    hide ExtractOf, Chunks, AllChunks, UpTo, AllExtracts, Flatten, Bounded, MergeFails;
    var extracts := sources;
    history := SourceHistory(sources, merge);
    while true
      invariant |extracts| <= |sources|
      invariant AllExtracts(history, sources, merge, extracts) && AllChunks(history) == UpTo(|sources|)
      decreases |extracts|
    {
      if fits(extracts) {
        return Some(extracts), extracts, history;
      }
      var grouped := BoundedGroups(extracts, fits);
      if grouped.None? {
        return None, extracts, history;
      }
      var groups := grouped.value;
      GroupsPartition(extracts, fits);
      if |groups| >= |extracts| {
        return None, extracts, history;
      }
      var merged, done := MergeRound(sources, merge, extracts, history, groups);
      if merged.None? {
        return None, extracts, history;
      }
      extracts, history := merged.value, done;
    }
  }

  /** One provider call a group, in order. */
  method MergeRound(ghost sources: seq<string>, merge: seq<string> -> Option<string>, ghost extracts: seq<string>,
                    ghost history: seq<Extract>, groups: seq<seq<string>>)
    returns (r: Option<seq<string>>, ghost done: seq<Extract>)
    requires AllExtracts(history, sources, merge, extracts) && Flatten(groups) == extracts
    ensures r.None? <==> MergeFails(groups, merge)
    ensures r.Some? ==> |r.value| == |groups| && AllExtracts(done, sources, merge, r.value) && AllChunks(done) == AllChunks(history)
  {
    hide ExtractOf, Chunks, AllChunks, Flatten;
    var merged: seq<string> := [];
    done := [];
    ghost var used := 0;
    NothingMerged(groups, history);
    for k := 0 to |groups|
      invariant forall n :: 0 <= n < k ==> merge(groups[n]).Some?
      invariant |merged| == k && used == |Flatten(groups[..k])| <= |extracts|
      invariant AllExtracts(done, sources, merge, merged) && AllChunks(done) == AllChunks(history[..used])
    {
      var text := merge(groups[k]);
      if text.None? {
        return None, [];
      }
      GroupSlice(groups, k);
      ghost var part := history[used..used + |groups[k]|];
      PartExtracts(sources, merge, history, extracts, used, used + |groups[k]|);
      MergeOne(sources, merge, part, groups[k], done, merged, text.value);
      assert history[..used + |groups[k]|] == history[..used] + part;
      ChunksAppend(history[..used], part);
      done := done + [Merged(part)];
      merged := merged + [text.value];
      used := used + |groups[k]|;
    }
    assert groups[..|groups|] == groups && history[..|extracts|] == history;
    return Some(merged), done;
  }

  lemma PartExtracts(sources: seq<string>, merge: seq<string> -> Option<string>, history: seq<Extract>, extracts: seq<string>, a: nat, b: nat)
    requires AllExtracts(history, sources, merge, extracts) && a <= b <= |extracts|
    ensures AllExtracts(history[a..b], sources, merge, extracts[a..b])
  {
    hide ExtractOf;
  }

  lemma SourceHistory(sources: seq<string>, merge: seq<string> -> Option<string>) returns (history: seq<Extract>)
    ensures AllExtracts(history, sources, merge, sources) && AllChunks(history) == UpTo(|sources|)
  {
    history := seq(|sources|, (i: nat) => Source(i));
    SourceChunks(history, |sources|);
    assert history[..|sources|] == history;
  }

  lemma {:induction false} SourceChunks(history: seq<Extract>, n: nat)
    requires n <= |history| && forall i :: 0 <= i < |history| ==> history[i] == Source(i)
    ensures AllChunks(history[..n]) == UpTo(n)
  {
    if n > 0 {
      SourceChunks(history, n - 1);
      assert history[..n][..n - 1] == history[..n - 1];
    }
  }

  lemma NothingMerged(groups: seq<seq<string>>, history: seq<Extract>)
    ensures Flatten(groups[..0]) == [] && AllChunks([]) == AllChunks(history[..0])
  {
  }

  lemma {:induction false} ChunksAppend(a: seq<Extract>, b: seq<Extract>)
    ensures AllChunks(a + b) == AllChunks(a) + AllChunks(b)
  {
    hide Chunks;
    if b == [] {
      assert a + b == a;
    } else {
      assert (a + b)[..|a + b| - 1] == a + b[..|b| - 1];
      ChunksAppend(a, b[..|b| - 1]);
    }
  }

  lemma {:induction false} FlattenPrefix(groups: seq<seq<string>>, k: nat)
    requires k <= |groups|
    ensures Flatten(groups[..k]) <= Flatten(groups)
    decreases |groups|
  {
    var n := |groups|;
    if k == n {
      assert groups[..k] == groups;
    } else {
      FlattenPrefix(groups[..n - 1], k);
      assert groups[..n - 1][..k] == groups[..k];
    }
  }

  /** Group `k` of a partition is a stretch of the list. */
  lemma GroupSlice(groups: seq<seq<string>>, k: nat)
    requires k < |groups|
    ensures var used, n := |Flatten(groups[..k])|, |groups[k]|;
            && |Flatten(groups[..k + 1])| == used + n <= |Flatten(groups)|
            && Flatten(groups)[used..used + n] == groups[k]
  {
    assert groups[..k + 1] == groups[..k] + [groups[k]];
    FlattenSnoc(groups[..k], groups[k]);
    FlattenPrefix(groups, k + 1);
    hide Flatten;
    var used, n := |Flatten(groups[..k])|, |groups[k]|;
    var prefix, whole := Flatten(groups[..k + 1]), Flatten(groups);
    assert whole[..used + n] == prefix;
    assert whole[used..used + n] == prefix[used..];
  }

  lemma MergeOne(sources: seq<string>, merge: seq<string> -> Option<string>, part: seq<Extract>, texts: seq<string>,
                 done: seq<Extract>, merged: seq<string>, text: string)
    requires AllExtracts(part, sources, merge, texts) && merge(texts) == Some(text)
    requires AllExtracts(done, sources, merge, merged)
    ensures AllExtracts(done + [Merged(part)], sources, merge, merged + [text])
    ensures AllChunks(done + [Merged(part)]) == AllChunks(done) + AllChunks(part)
  {
    assert MergedFrom(part, texts, sources, merge, text);
    assert ExtractOf(Merged(part), sources, merge, text);
    assert (done + [Merged(part)])[..|done|] == done;
  }
}
