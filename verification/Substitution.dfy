/**
 Exact replacements on an immutable base (`_replacement_span` and `_apply_base_replacements`,
 src/oveo/generation.py): sort by start, compare neighbours, splice from the right.
 */
module Substitution {
  /** Replace the one occurrence of `anchor` by `text`. The decoder refuses an empty anchor. */
  datatype Replacement = Replacement(anchor: string, text: string)

  datatype Edit = Edit(start: nat, end: nat, text: string)

  datatype Outcome = Applied(text: string) | Missing | Ambiguous | Overlapping

  // ----- the reference: one simultaneous substitution, said without spans, sorting or splicing -----

  predicate OccursAt(base: string, anchor: string, i: nat) {
    i + |anchor| <= |base| && base[i..i + |anchor|] == anchor
  }

  /** Exactly one position holds the anchor; occurrences may overlap themselves. */
  ghost predicate OccursOnce(base: string, anchor: string) {
    exists i: nat :: OccursOnlyAt(base, anchor, i)
  }

  ghost predicate OccursOnlyAt(base: string, anchor: string, i: nat) {
    OccursAt(base, anchor, i) && forall j: nat :: OccursAt(base, anchor, j) ==> j == i
  }

  /** No character of the base belongs to an occurrence of both anchors. */
  ghost predicate Disjoint(base: string, a: string, b: string) {
    forall i: nat, j: nat :: OccursAt(base, a, i) && OccursAt(base, b, j) ==> i + |a| <= j || j + |b| <= i
  }

  ghost predicate AllOnce(base: string, rs: seq<Replacement>) {
    FirstOnce(base, rs, |rs|)
  }

  ghost predicate FirstOnce(base: string, rs: seq<Replacement>, n: nat)
    requires n <= |rs|
  {
    forall k :: 0 <= k < n ==> OccursOnce(base, rs[k].anchor)
  }

  ghost predicate PairwiseDisjoint(base: string, rs: seq<Replacement>) {
    forall k, l :: 0 <= k < l < |rs| ==> Disjoint(base, rs[k].anchor, rs[l].anchor)
  }

  predicate Anchored(rs: seq<Replacement>) {
    forall k :: 0 <= k < |rs| ==> rs[k].anchor != ""
  }

  /** Reads the base once from position `p`: an anchor yields its replacement, any other character itself. */
  ghost function Substituted(base: string, rs: set<Replacement>, p: nat): string
    requires forall r <- rs :: r.anchor != ""
    requires p <= |base|
    decreases |base| - p
  {
    var here := AnchorsAt(base, rs, p);
    if p == |base| then ""
    else if here == {} then [base[p]] + Substituted(base, rs, p + 1)
    else
      var r :| r in here;
      r.text + Substituted(base, rs, p + |r.anchor|)
  }

  /** The replacements whose anchor occurs at `p`. */
  ghost function AnchorsAt(base: string, rs: set<Replacement>, p: nat): (here: set<Replacement>)
    ensures forall r :: r in here <==> r in rs && OccursAt(base, r.anchor, p)
  {
    set r | r in rs && OccursAt(base, r.anchor, p)
  }

  ghost function AsSet(rs: seq<Replacement>): (s: set<Replacement>)
    ensures forall r :: r in s <==> r in rs
    ensures Anchored(rs) ==> forall r <- s :: r.anchor != ""
  {
    set r | r in rs
  }

  /** The outcome of a replacement list. */
  ghost function Meaning(base: string, rs: seq<Replacement>): Outcome
    requires Anchored(rs)
  {
    if !AllOnce(base, rs) then
      if FirstFailureMissing(base, rs) then Missing else Ambiguous
    else if !PairwiseDisjoint(base, rs) then Overlapping
    else Applied(Substituted(base, AsSet(rs), 0))
  }

  /** Of the anchors that do not occur exactly once, the first in the list does not occur at all. */
  ghost predicate FirstFailureMissing(base: string, rs: seq<Replacement>) {
    exists k :: 0 <= k < |rs| && FirstOnce(base, rs, k) && forall i: nat :: !OccursAt(base, rs[k].anchor, i)
  }

  // ----- the code -----

  /** `text.find(anchor, from)` */
  method Find(base: string, anchor: string, from: nat) returns (at: int)
    ensures at == -1 <==> forall i: nat :: from <= i ==> !OccursAt(base, anchor, i)
    ensures at != -1 ==> at >= from && OccursAt(base, anchor, at)
    ensures at != -1 ==> forall i: nat :: from <= i < at ==> !OccursAt(base, anchor, i)
  {
    var i := from;
    while i + |anchor| <= |base|
      invariant from <= i
      invariant forall j: nat :: from <= j < i ==> !OccursAt(base, anchor, j)
    {
      if base[i..i + |anchor|] == anchor {
        assert OccursAt(base, anchor, i);
        return i;
      }
      i := i + 1;
    }
    return -1;
  }

  /** `_replacement_span` */
  method ReplacementSpan(base: string, r: Replacement) returns (o: Outcome, e: Edit)
    ensures o.Applied? <==> OccursOnce(base, r.anchor)
    ensures o.Applied? ==> EditOf(base, r, e)
    ensures o.Missing? <==> forall i: nat :: !OccursAt(base, r.anchor, i)
    ensures !o.Overlapping?
  {
    var first := Find(base, r.anchor, 0);
    if first < 0 {
      return Missing, Edit(0, 0, "");
    }
    assert OccursAt(base, r.anchor, first);
    var second := Find(base, r.anchor, first + 1);
    if second >= 0 {
      assert OccursAt(base, r.anchor, second);
      return Ambiguous, Edit(0, 0, "");
    }
    assert OccursOnlyAt(base, r.anchor, first);
    return Applied(""), Edit(first, first + |r.anchor|, r.text);
  }

  ghost predicate EditOf(base: string, r: Replacement, e: Edit) {
    OccursOnlyAt(base, r.anchor, e.start) && e.end == e.start + |r.anchor| && e.text == r.text
  }

  ghost predicate EditsOf(base: string, rs: seq<Replacement>, es: seq<Edit>) {
    |es| == |rs| && forall k :: 0 <= k < |rs| ==> EditOf(base, rs[k], es[k])
  }

  // ----- sorting -----

  /** `order` lists each index below `n` once. */
  ghost predicate Permutes(order: seq<nat>, n: nat) {
    && |order| == n
    && (forall k :: 0 <= k < n ==> order[k] < n)
    && (forall k, l :: 0 <= k < l < n ==> order[k] != order[l])
    && (forall m: nat :: m < n ==> m in order)
  }

  predicate Sorted(es: seq<Edit>) {
    forall k, l :: 0 <= k < l < |es| ==> es[k].start <= es[l].start
  }

  lemma InsertIndex(order: seq<nat>, n: nat, p: nat)
    requires Permutes(order, n) && p <= n
    ensures Permutes(order[..p] + [n] + order[p..], n + 1)
  {
    var next := order[..p] + [n] + order[p..];
    forall m: nat | m < n + 1
      ensures m in next
    {
      if m == n {
        assert next[p] == n;
      } else {
        assert m in order;
        var k :| 0 <= k < n && order[k] == m;
        assert next[if k < p then k else k + 1] == m;
      }
    }
  }

  /** `sorted` holds the first `n` edits by start; `order` says where each came from. */
  ghost predicate SortedFirst(es: seq<Edit>, n: nat, sorted: seq<Edit>, order: seq<nat>) {
    && n <= |es| && Sorted(sorted) && Permutes(order, n) && |order| == |sorted| == n
    && forall k :: 0 <= k < n ==> order[k] < n && sorted[k] == es[order[k]]
  }

  lemma InsertEdit(es: seq<Edit>, n: nat, sorted: seq<Edit>, order: seq<nat>, p: nat)
    requires n < |es| && SortedFirst(es, n, sorted, order) && p <= n
    requires forall k :: 0 <= k < p ==> sorted[k].start <= es[n].start
    requires forall k :: p <= k < n ==> sorted[k].start > es[n].start
    ensures SortedFirst(es, n + 1, sorted[..p] + [es[n]] + sorted[p..], order[..p] + [n] + order[p..])
  {
    InsertIndex(order, n, p);
    var more, next := sorted[..p] + [es[n]] + sorted[p..], order[..p] + [n] + order[p..];
    forall k | 0 <= k < n + 1
      ensures more[k] == es[next[k]]
    {
      var was := if k < p then k else k - 1;
      assert k != p ==> more[k] == sorted[was] && next[k] == order[was];
    }
    SortedInsert(sorted, es[n], p);
  }

  lemma SortedInsert(sorted: seq<Edit>, e: Edit, p: nat)
    requires Sorted(sorted) && p <= |sorted|
    requires forall k :: 0 <= k < p ==> sorted[k].start <= e.start
    requires forall k :: p <= k < |sorted| ==> sorted[k].start > e.start
    ensures Sorted(sorted[..p] + [e] + sorted[p..])
  {
  }

  /** `sorted(edits, key=start)`: a stable insertion. */
  method SortByStart(es: seq<Edit>) returns (sorted: seq<Edit>, ghost order: seq<nat>)
    ensures SortedFirst(es, |es|, sorted, order)
  {
    hide Permutes;
    sorted, order := [], [];
    PermutesNothing();
    for n := 0 to |es|
      invariant SortedFirst(es, n, sorted, order)
    {
      var p := n;
      while p > 0 && sorted[p - 1].start > es[n].start
        invariant 0 <= p <= n
        invariant forall k :: p <= k < n ==> sorted[k].start > es[n].start
      {
        p := p - 1;
      }
      InsertEdit(es, n, sorted, order, p);
      order := order[..p] + [n] + order[p..];
      sorted := sorted[..p] + [es[n]] + sorted[p..];
    }
  }

  lemma PermutesNothing()
    ensures Permutes([], 0)
  {
  }

  // ----- neighbours -----

  /** `es` are the edits of `rs`, sorted by start. */
  ghost predicate Arranged(base: string, rs: seq<Replacement>, es: seq<Edit>, order: seq<nat>) {
    && Permutes(order, |rs|) && |es| == |rs| && Sorted(es)
    && forall k :: 0 <= k < |rs| ==> EditOf(base, rs[order[k]], es[k])
  }

  /** Each edit ends before the next begins. */
  predicate Chained(es: seq<Edit>) {
    forall k :: 0 <= k < |es| - 1 ==> es[k].end <= es[k + 1].start
  }

  lemma {:induction false} ChainedApart(es: seq<Edit>, k: nat, l: nat)
    requires Chained(es) && (forall m :: 0 <= m < |es| ==> es[m].start <= es[m].end)
    requires k < l < |es|
    ensures es[k].end <= es[l].start
  {
    if k + 1 < l {
      ChainedApart(es, k, l - 1);
    }
  }

  lemma NeighboursOverlap(base: string, rs: seq<Replacement>, es: seq<Edit>, order: seq<nat>, i: nat)
    requires Anchored(rs) && Arranged(base, rs, es, order) && i + 1 < |es|
    requires es[i].end > es[i + 1].start
    ensures !PairwiseDisjoint(base, rs)
  {
    var a, b := order[i], order[i + 1];
    assert rs[a].anchor != "" && rs[b].anchor != "";
    assert es[i].start <= es[i + 1].start;
    assert EditOf(base, rs[a], es[i]) && EditOf(base, rs[b], es[i + 1]);
    assert !Disjoint(base, rs[a].anchor, rs[b].anchor) && !Disjoint(base, rs[b].anchor, rs[a].anchor) by {
      assert OccursAt(base, rs[a].anchor, es[i].start) && OccursAt(base, rs[b].anchor, es[i + 1].start);
    }
  }

  lemma NeighboursSuffice(base: string, rs: seq<Replacement>, es: seq<Edit>, order: seq<nat>)
    requires Arranged(base, rs, es, order) && Chained(es)
    ensures PairwiseDisjoint(base, rs)
  {
    hide OccursAt, Sorted;
    forall k, l | 0 <= k < l < |rs|
      ensures Disjoint(base, rs[k].anchor, rs[l].anchor)
    {
      assert k in order && l in order;
      var a :| 0 <= a < |rs| && order[a] == k;
      var b :| 0 <= b < |rs| && order[b] == l;
      assert EditOf(base, rs[order[a]], es[a]) && EditOf(base, rs[order[b]], es[b]);
      assert forall m :: 0 <= m < |es| ==> EditOf(base, rs[order[m]], es[m]);
      if a < b {
        ChainedApart(es, a, b);
      } else {
        ChainedApart(es, b, a);
      }
    }
  }

  // ----- splicing -----

  /** Where edit `i` starts; the end of the base past the last one. */
  function From(es: seq<Edit>, i: nat, n: nat): nat {
    if i < |es| then es[i].start else n
  }

  /** The character gap [p, q) holds no anchor. */
  ghost predicate Gap(base: string, rs: set<Replacement>, p: nat, q: nat) {
    forall r, i: nat :: r in rs && p <= i < q ==> !OccursAt(base, r.anchor, i)
  }

  lemma {:induction false} CopiesGap(base: string, rs: set<Replacement>, p: nat, q: nat)
    requires forall r <- rs :: r.anchor != ""
    requires p <= q <= |base| && Gap(base, rs, p, q)
    ensures Substituted(base, rs, p) == base[p..q] + Substituted(base, rs, q)
    decreases q - p
  {
    hide OccursAt, Substituted;
    if p < q {
      CopiesGap(base, rs, p + 1, q);
      TakesCharacter(base, rs, p);
      assert base[p..q] == [base[p]] + base[p + 1..q];
    }
  }

  lemma TakesCharacter(base: string, rs: set<Replacement>, p: nat)
    requires forall r <- rs :: r.anchor != ""
    requires p < |base| && forall r <- rs :: !OccursAt(base, r.anchor, p)
    ensures Substituted(base, rs, p) == [base[p]] + Substituted(base, rs, p + 1)
  {
    assert AnchorsAt(base, rs, p) == {};
  }

  lemma AnchorAt(base: string, rs: seq<Replacement>, es: seq<Edit>, order: seq<nat>, r: Replacement, p: nat) returns (k: nat)
    requires Arranged(base, rs, es, order) && r in rs && OccursAt(base, r.anchor, p)
    ensures k < |rs| && rs[order[k]] == r && es[k].start == p && es[k].text == r.text && es[k].end == p + |r.anchor|
  {
    var m :| 0 <= m < |rs| && rs[m] == r;
    assert m in order;
    k :| 0 <= k < |rs| && order[k] == m;
    assert EditOf(base, rs[order[k]], es[k]);
  }

  /** Between two neighbouring edits, before the first and after the last, no anchor occurs. */
  lemma GapBefore(base: string, rs: seq<Replacement>, es: seq<Edit>, order: seq<nat>, i: nat)
    requires Anchored(rs) && Arranged(base, rs, es, order) && Chained(es) && i <= |es|
    ensures (if i == 0 then 0 else es[i - 1].end) <= From(es, i, |base|) <= |base|
    ensures Gap(base, AsSet(rs), if i == 0 then 0 else es[i - 1].end, From(es, i, |base|))
  {
    var p, q := if i == 0 then 0 else es[i - 1].end, From(es, i, |base|);
    assert forall m :: 0 <= m < |es| ==> EditOf(base, rs[order[m]], es[m]) && rs[order[m]].anchor != "";
    forall r, x: nat | r in AsSet(rs) && OccursAt(base, r.anchor, x)
      ensures x < p || q <= x
    {
      var k := AnchorAt(base, rs, es, order, r, x);
      if k < i - 1 {
        ChainedApart(es, k, i - 1);
      } else if i < k {
        ChainedApart(es, i, k);
      }
    }
  }

  lemma SpliceStep(base: string, rs: seq<Replacement>, es: seq<Edit>, order: seq<nat>, i: nat)
    requires Anchored(rs) && Arranged(base, rs, es, order) && Chained(es) && i < |es|
    ensures es[i].start < es[i].end <= From(es, i + 1, |base|) <= |base|
    ensures Substituted(base, AsSet(rs), es[i].start)
         == es[i].text + (base[es[i].end..From(es, i + 1, |base|)] + Substituted(base, AsSet(rs), From(es, i + 1, |base|)))
  {
    hide OccursAt, OccursOnlyAt, Substituted, Gap, Anchored, Sorted, Permutes, Chained, AsSet, Arranged, EditOf;
    GapBefore(base, rs, es, order, i + 1);
    var p, q := es[i].end, From(es, i + 1, |base|);
    CopiesGap(base, AsSet(rs), p, q);
    var mine := OnlyAnchor(base, rs, es, order, i);
    TakesAnchor(base, AsSet(rs), es[i].start, mine);
  }

  lemma TakesAnchor(base: string, rs: set<Replacement>, p: nat, mine: Replacement)
    requires forall r <- rs :: r.anchor != ""
    requires mine in rs && OccursAt(base, mine.anchor, p)
    requires forall r <- rs :: OccursAt(base, r.anchor, p) ==> r == mine
    ensures p < |base| && Substituted(base, rs, p) == mine.text + Substituted(base, rs, p + |mine.anchor|)
  {
    assert p < |base| && AnchorsAt(base, rs, p) == {mine};
    hide OccursAt;
  }

  lemma OnlyAnchor(base: string, rs: seq<Replacement>, es: seq<Edit>, order: seq<nat>, i: nat) returns (mine: Replacement)
    requires Anchored(rs) && Arranged(base, rs, es, order) && Chained(es) && i < |es|
    ensures mine in AsSet(rs) && es[i].end == es[i].start + |mine.anchor| && es[i].text == mine.text
    ensures OccursAt(base, mine.anchor, es[i].start)
    ensures mine.anchor != ""
    ensures forall r <- AsSet(rs) :: OccursAt(base, r.anchor, es[i].start) ==> r == mine
  {
    mine := rs[order[i]];
    assert EditOf(base, mine, es[i]);
    forall r | r in AsSet(rs) && OccursAt(base, r.anchor, es[i].start)
      ensures r == mine
    {
      var k := AnchorAt(base, rs, es, order, r, es[i].start);
      if k < i {
        ApartStarts(base, rs, es, order, k, i);
      } else if i < k {
        ApartStarts(base, rs, es, order, i, k);
      }
    }
  }

  lemma ApartStarts(base: string, rs: seq<Replacement>, es: seq<Edit>, order: seq<nat>, k: nat, l: nat)
    requires Anchored(rs) && Arranged(base, rs, es, order) && Chained(es) && k < l < |es|
    ensures es[k].start < es[l].start
  {
    assert forall m :: 0 <= m < |es| ==> EditOf(base, rs[order[m]], es[m]) && rs[order[m]].anchor != "";
    ChainedApart(es, k, l);
  }

  lemma SpliceText(base: string, e: Edit, next: nat, tail: string)
    requires e.start <= e.end <= next <= |base|
    ensures var result := base[..next] + tail;
            result[..e.start] + e.text + result[e.end..] == base[..e.start] + (e.text + (base[e.end..next] + tail))
  {
  }

  // ----- the method -----

  lemma OutcomeOfFailure(base: string, rs: seq<Replacement>, k: nat)
    requires k < |rs| && FirstOnce(base, rs, k) && !OccursOnce(base, rs[k].anchor)
    ensures !AllOnce(base, rs)
    ensures FirstFailureMissing(base, rs) <==> forall i: nat :: !OccursAt(base, rs[k].anchor, i)
  {
    if FirstFailureMissing(base, rs) {
      var l :| 0 <= l < |rs| && FirstOnce(base, rs, l) && forall i: nat :: !OccursAt(base, rs[l].anchor, i);
      assert !OccursOnce(base, rs[l].anchor);
      assert l == k;
    }
  }

  /** `_apply_base_replacements` */
  method ApplyBaseReplacements(base: string, rs: seq<Replacement>) returns (o: Outcome)
    requires Anchored(rs)
    ensures o == Meaning(base, rs)
  {
    hide OccursAt, OccursOnce, OccursOnlyAt, Disjoint, Substituted;
    var edits: seq<Edit> := [];
    for k := 0 to |rs|
      invariant FirstOnce(base, rs, k)
      invariant EditsOf(base, rs[..k], edits)
    {
      var found, e := ReplacementSpan(base, rs[k]);
      if !found.Applied? {
        OutcomeOfFailure(base, rs, k);
        return found;
      }
      assert rs[..k + 1] == rs[..k] + [rs[k]];
      edits := edits + [e];
    }
    assert rs[..|rs|] == rs;
    var ordered, order := SortByStart(edits);
    assert Arranged(base, rs, ordered, order);
    var i := 0;
    while i + 1 < |ordered|
      invariant forall k :: 0 <= k < i && k + 1 < |ordered| ==> ordered[k].end <= ordered[k + 1].start
    {
      if ordered[i].end > ordered[i + 1].start {
        NeighboursOverlap(base, rs, ordered, order, i);
        return Overlapping;
      }
      i := i + 1;
    }
    NeighboursSuffice(base, rs, ordered, order);
    var result := base;
    i := |ordered|;
    SubstitutedAtEnd(base, AsSet(rs));
    while i > 0
      invariant 0 <= i <= |ordered|
      invariant From(ordered, i, |base|) <= |base|
      invariant result == base[..From(ordered, i, |base|)] + Substituted(base, AsSet(rs), From(ordered, i, |base|))
    {
      i := i - 1;
      SpliceStep(base, rs, ordered, order, i);
      var e := ordered[i];
      ghost var next := From(ordered, i + 1, |base|);
      SpliceText(base, e, next, Substituted(base, AsSet(rs), next));
      result := result[..e.start] + e.text + result[e.end..];
    }
    GapBefore(base, rs, ordered, order, 0);
    CopiesGap(base, AsSet(rs), 0, From(ordered, 0, |base|));
    assert base[0..From(ordered, 0, |base|)] == base[..From(ordered, 0, |base|)];
    return Applied(result);
  }

  lemma SubstitutedAtEnd(base: string, rs: set<Replacement>)
    requires forall r <- rs :: r.anchor != ""
    ensures base[..|base|] + Substituted(base, rs, |base|) == base
  {
  }

  // ----- order -----

  /** No list entry is repeated. */
  ghost predicate Distinct(rs: seq<Replacement>) {
    forall k, l :: 0 <= k < l < |rs| ==> rs[k] != rs[l]
  }

  lemma {:induction false} DistinctIsCounted(rs: seq<Replacement>)
    ensures Distinct(rs) <==> forall r <- rs :: multiset(rs)[r] == 1
  {
    if rs != [] {
      var init, last := rs[..|rs| - 1], rs[|rs| - 1];
      assert rs == init + [last];
      DistinctIsCounted(init);
      assert multiset(rs) == multiset(init) + multiset{last};
      if Distinct(rs) {
        assert last !in init;
        forall r | r in rs
          ensures multiset(rs)[r] == 1
        {
          if r in init {
            assert multiset(init)[r] == 1;
          }
        }
      } else {
        var k, l :| 0 <= k < l < |rs| && rs[k] == rs[l];
        assert rs[k] == init[k] && rs[k] in multiset(init);
        if l < |rs| - 1 {
          assert init[l] == rs[l];
          assert !Distinct(init);
          var r :| r in init && multiset(init)[r] != 1;
          assert r in rs && multiset(rs)[r] != 1;
        } else {
          assert multiset(rs)[last] != 1;
        }
      }
    }
  }

  /** The overlap condition, said of the collection of replacements and not of their order. */
  ghost predicate UnorderedDisjoint(base: string, rs: multiset<Replacement>) {
    && (forall r <- rs :: rs[r] == 1)
    && forall r, q :: r in rs && q in rs && r != q ==> Disjoint(base, r.anchor, q.anchor)
  }

  lemma DisjointIsUnordered(base: string, rs: seq<Replacement>)
    requires Anchored(rs) && AllOnce(base, rs)
    ensures PairwiseDisjoint(base, rs) <==> UnorderedDisjoint(base, multiset(rs))
  {
    hide OccursAt;
    DistinctIsCounted(rs);
    assert forall r :: r in multiset(rs) <==> r in rs;
    if PairwiseDisjoint(base, rs) {
      forall k, l | 0 <= k < l < |rs|
        ensures rs[k] != rs[l]
      {
        var at :| OccursOnlyAt(base, rs[k].anchor, at);
        assert OccursAt(base, rs[k].anchor, at) && rs[k].anchor != "" && Disjoint(base, rs[k].anchor, rs[l].anchor);
      }
      forall r, q | r in multiset(rs) && q in multiset(rs) && r != q
        ensures Disjoint(base, r.anchor, q.anchor)
      {
        var k :| 0 <= k < |rs| && rs[k] == r;
        var l :| 0 <= l < |rs| && rs[l] == q;
        assert Disjoint(base, rs[if k < l then k else l].anchor, rs[if k < l then l else k].anchor);
      }
    }
  }

  lemma AllOnceIsUnordered(base: string, rs: seq<Replacement>)
    ensures AllOnce(base, rs) <==> forall r <- multiset(rs) :: OccursOnce(base, r.anchor)
  {
    hide OccursOnce;
    assert forall k :: 0 <= k < |rs| ==> rs[k] in multiset(rs);
  }

  /**
   The order of the replacements does not matter: neither to whether the list applies, nor to the text. Only
   which of the two single-anchor errors is raised first depends on it.
   */
  lemma OrderDoesNotMatter(base: string, rs: seq<Replacement>, qs: seq<Replacement>)
    requires Anchored(rs) && Anchored(qs) && multiset(rs) == multiset(qs)
    ensures Meaning(base, rs) == Meaning(base, qs) || (!AllOnce(base, rs) && !AllOnce(base, qs))
  {
    hide AllOnce, PairwiseDisjoint, UnorderedDisjoint, OccursOnce, Substituted;
    AllOnceIsUnordered(base, rs);
    AllOnceIsUnordered(base, qs);
    if AllOnce(base, rs) {
      DisjointIsUnordered(base, rs);
      DisjointIsUnordered(base, qs);
      assert forall r :: r in rs <==> r in multiset(rs);
      assert forall r :: r in qs <==> r in multiset(qs);
      assert AsSet(rs) == AsSet(qs);
    }
  }
}
