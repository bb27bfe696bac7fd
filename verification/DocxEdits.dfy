/**
 What one edit of `_patch_paragraph` does: it changes the text of one stretch and nothing else.
 */
module DocxEdits {
  import opened DocxLinks
  import opened DocxTree
  import opened DocxLayout
  import opened DocxPatch

  // ----- identity -----

  function Key(c: Cell): (nat, nat) {
    match c
    case Found(id, _, _) => (0, id)
    case Open(id, _) => (1, id)
    case Close(id) => (2, id)
    case Nested(id, _) => (3, id)
  }

  function Keys(cs: seq<Cell>): set<(nat, nat)> {
    if cs == [] then {} else Keys(cs[..|cs| - 1]) + {Key(cs[|cs| - 1])}
  }

  /** No two elements share an identity below `n`; new elements are numbered from `n` on. */
  predicate Unique(cs: seq<Cell>, n: nat) {
    cs != [] ==>
      var a, c := cs[..|cs| - 1], cs[|cs| - 1];
      Unique(a, n) && (c.id < n ==> Key(c) !in Keys(a))
  }

  /** Elements are distinct, which the parsed tree guarantees. */
  ghost predicate Identified(p: Para) {
    Unique(Cells(p.kids), p.next) && forall i :: 0 <= i < |Cells(p.kids)| ==> Cells(p.kids)[i].id < p.next
  }

  lemma SnocKeys(a: seq<Cell>, c: Cell, n: nat)
    ensures Keys(a + [c]) == Keys(a) + {Key(c)}
    ensures Unique(a + [c], n) <==> Unique(a, n) && (c.id < n ==> Key(c) !in Keys(a))
  {
    hide Key;
    assert (a + [c])[..|a + [c]| - 1] == a && (a + [c])[|a + [c]| - 1] == c;
  }

  lemma {:induction false} KeyHere(cs: seq<Cell>, i: nat)
    requires i < |cs|
    ensures Key(cs[i]) in Keys(cs)
  {
    if i < |cs| - 1 {
      KeyHere(cs[..|cs| - 1], i);
    }
  }

  lemma {:induction false} SameIndex(cs: seq<Cell>, n: nat, i: nat, j: nat)
    requires Unique(cs, n) && i <= j < |cs| && cs[i].id < n && Key(cs[i]) == Key(cs[j])
    ensures i == j
  {
    hide Key;
    var a := cs[..|cs| - 1];
    if j < |a| {
      SameIndex(a, n, i, j);
    } else if i < |a| {
      KeyHere(a, i);
      KeyId(cs[i], cs[j]);
    }
  }

  lemma KeyId(c: Cell, d: Cell)
    requires Key(c) == Key(d)
    ensures c.id == d.id
  {
  }

  /** Cells read of a stretch are cells of the walk, in its order. */
  lemma {:induction false} SelKeys(cs: seq<Cell>, z: Zone, n: nat)
    requires Unique(cs, n)
    ensures Keys(Sel(cs, z)) <= Keys(cs) && Unique(Sel(cs, z), n)
    ensures forall c :: c in Sel(cs, z) ==> c in cs
  {
    if cs != [] {
      hide Key, IsInline, InZone, Walk, Sel, Unique, Keys;
      var a, c := cs[..|cs| - 1], cs[|cs| - 1];
      assert cs == a + [c];
      SnocKeys(a, c, n);
      SelKeys(a, z, n);
      Snoc(a, c, z);
      if IsInline(c) && InZone(Walk(a), z) {
        SnocKeys(Sel(a, z), c, n);
      } else {
        assert Sel(cs, z) == Sel(a, z);
      }
    }
  }

  /** Two stretches share no element of the original tree. */
  lemma {:induction false} ZonesApart(cs: seq<Cell>, z: Zone, z': Zone, n: nat, id: nat)
    requires Unique(cs, n) && z != z' && id < n && (0, id) in Keys(Sel(cs, z))
    ensures (0, id) !in Keys(Sel(cs, z'))
  {
    hide IsInline, Walk;
    var a, c := cs[..|cs| - 1], cs[|cs| - 1];
    SelKeys(a, z, n);
    SelKeys(a, z', n);
    SnocKeys(Sel(a, z), c, n);
    SnocKeys(Sel(a, z'), c, n);
    assert Sel(cs, z) == Sel(a, z) + [c] || Sel(cs, z) == Sel(a, z);
    assert Sel(cs, z') == Sel(a, z') + [c] || Sel(cs, z') == Sel(a, z');
    if (0, id) in Keys(Sel(a, z)) {
      ZonesApart(a, z, z', n, id);
    }
  }

  lemma {:induction false} FlatSubstNone(cs: seq<Cell>, m: map<nat, seq<Node>>)
    requires forall i :: 0 <= i < |cs| && cs[i].Found? ==> cs[i].id !in m
    ensures FlatSubst(cs, m) == cs
  {
    hide OwnAll;
    if cs != [] {
      var a, c := cs[..|cs| - 1], cs[|cs| - 1];
      assert cs == a + [c] && forall i :: 0 <= i < |a| ==> a[i] == cs[i];
      FlatSubstNone(a, m);
      hide FlatSubst;
      FlatSubstAppend(a, [c], m);
      FlatSubstOne(c, m);
    } else {
      assert FlatSubst([], m) == [];
    }
  }

  /** Rewriting a stretch puts the new elements where its first item was and removes the rest. */
  lemma {:induction false} SubstItems(items: seq<Cell>, k: nat, elements: seq<Node>, n: nat)
    requires 0 < k <= |items| && AllInline(items) && Unique(items, n) && (forall i :: 0 <= i < |items| ==> items[i].id < n)
    ensures FlatSubst(items[..k], RewriteMap(items, elements)) == OwnAll(elements, items[0].place)
  {
    var m := RewriteMap(items, elements);
    var c := items[k - 1];
    assert items[..k][..k - 1] == items[..k - 1];
    assert c.id in Ids(items);
    if k > 1 {
      SubstItems(items, k - 1, elements, n);
      if c.id == items[0].id {
        assert IsInline(items[0]) && IsInline(c);
        SameIndex(items, n, 0, k - 1);
      }
      assert OwnAll([], c.place) == [];
    } else {
      assert FlatSubst(items[..0], m) == [];
    }
  }

  // ----- uniqueness survives the edits -----

  predicate NewCells(x: seq<Cell>, n: nat) {
    forall i :: 0 <= i < |x| ==> x[i].id >= n
  }

  lemma {:induction false} UniqueTail(a: seq<Cell>, x: seq<Cell>, n: nat)
    requires Unique(a, n) && NewCells(x, n)
    ensures Unique(a + x, n) && (forall k :: k in Keys(a + x) && k.1 < n ==> k in Keys(a))
    decreases |x|
  {
    if x == [] {
      assert a + x == a;
    } else {
      var x', c := x[..|x| - 1], x[|x| - 1];
      UniqueTail(a, x', n);
      assert a + x == a + x' + [c];
      SnocKeys(a + x', c, n);
    }
  }

  lemma {:induction false} UniqueInsert(a: seq<Cell>, x: seq<Cell>, b: seq<Cell>, n: nat)
    requires Unique(a + b, n) && NewCells(x, n)
    ensures Unique(a + x + b, n) && (forall k :: k in Keys(a + x + b) && k.1 < n ==> k in Keys(a + b))
    decreases |b|
  {
    if b == [] {
      assert a + x + b == a + x && a + b == a;
      UniqueTail(a, x, n);
    } else {
      var b', c := b[..|b| - 1], b[|b| - 1];
      assert a + x + b == a + x + b' + [c] && a + b == a + b' + [c];
      SnocKeys(a + b', c, n);
      UniqueInsert(a, x, b', n);
      SnocKeys(a + x + b', c, n);
      assert Key(c).1 == c.id;
    }
  }

  predicate NewMap(cs: seq<Cell>, m: map<nat, seq<Node>>, n: nat) {
    forall i :: 0 <= i < |cs| && cs[i].Found? && cs[i].id in m ==> NewCells(OwnAll(m[cs[i].id], cs[i].place), n)
  }

  lemma {:induction false} UniqueSubst(cs: seq<Cell>, m: map<nat, seq<Node>>, n: nat)
    requires Unique(cs, n) && NewMap(cs, m, n)
    ensures Unique(FlatSubst(cs, m), n) && (forall k :: k in Keys(FlatSubst(cs, m)) && k.1 < n ==> k in Keys(cs))
  {
    if cs != [] {
      var a, c := cs[..|cs| - 1], cs[|cs| - 1];
      assert forall i :: 0 <= i < |a| ==> a[i] == cs[i];
      UniqueSubst(a, m, n);
      if c.Found? && c.id in m {
        UniqueTail(FlatSubst(a, m), OwnAll(m[c.id], c.place), n);
      } else {
        SnocKeys(FlatSubst(a, m), c, n);
        assert Key(c).1 == c.id;
      }
    }
  }

  // ----- layout breaks -----

  /** The page and column breaks among the cells. */
  function Breaks(cs: seq<Cell>): nat {
    if cs == [] then 0 else Breaks(cs[..|cs| - 1]) + if IsBreak(cs[|cs| - 1]) then 1 else 0
  }

  /** The hyperlinks below a child of the paragraph. */
  function NestedLinks(cs: seq<Cell>): nat {
    if cs == [] then 0
    else
      var c := cs[|cs| - 1];
      NestedLinks(cs[..|cs| - 1]) + if c.Nested? && c.tag.Hyperlink? then 1 else 0
  }

  lemma NestedSnoc(a: seq<Cell>, c: Cell)
    ensures NestedLinks(a + [c]) == NestedLinks(a) + if c.Nested? && c.tag.Hyperlink? then 1 else 0
  {
    assert (a + [c])[..|a + [c]| - 1] == a && (a + [c])[|a + [c]| - 1] == c;
  }

  /** For each item of a stretch, how many breaks come before it. */
  function Spots(cs: seq<Cell>, z: Zone): (r: seq<nat>)
    ensures |r| == |Sel(cs, z)|
  {
    if cs == [] then []
    else
      var a, c := cs[..|cs| - 1], cs[|cs| - 1];
      Spots(a, z) + if IsInline(c) && InZone(Walk(a), z) then [Breaks(a)] else []
  }

  function Copies(n: nat, k: nat): (r: seq<nat>)
    ensures |r| == n && forall i :: 0 <= i < n ==> r[i] == k
  {
    seq(n, i => k)
  }

  lemma SpotsSnoc(a: seq<Cell>, c: Cell, z: Zone)
    ensures Breaks(a + [c]) == Breaks(a) + if IsBreak(c) then 1 else 0
    ensures Spots(a + [c], z) == Spots(a, z) + if IsInline(c) && InZone(Walk(a), z) then [Breaks(a)] else []
  {
    hide IsBreak, IsInline, InZone, Walk;
    assert (a + [c])[..|a + [c]| - 1] == a && (a + [c])[|a + [c]| - 1] == c;
  }

  lemma {:induction false} SpotsTail(a: seq<Cell>, x: seq<Cell>, z: Zone)
    requires Quiet(x) && Walk(a).At? && !Walk(a).mode.Code?
    ensures Breaks(a + x) == Breaks(a)
    ensures Spots(a + x, z) == Spots(a, z) + if InZone(Walk(a), z) then Copies(|InlineOf(x)|, Breaks(a)) else []
    decreases |x|
  {
    hide Walk, InZone, IsInline, Spots, Sel;
    if x == [] {
      assert a + x == a;
    } else {
      var x', c := x[..|x| - 1], x[|x| - 1];
      SpotsTail(a, x', z);
      assert a + x == a + x' + [c];
      QuietTail(a, x', z);
      SpotsSnoc(a + x', c, z);
      assert Copies(|InlineOf(x')| + 1, Breaks(a)) == Copies(|InlineOf(x')|, Breaks(a)) + [Breaks(a)];
    }
  }

  lemma {:induction false} SpotsInsert(a: seq<Cell>, x: seq<Cell>, b: seq<Cell>, z: Zone)
    requires Quiet(x) && Walk(a).At? && !Walk(a).mode.Code?
    ensures Breaks(a + x + b) == Breaks(a + b)
    ensures !InZone(Walk(a), z) ==> Spots(a + x + b, z) == Spots(a + b, z)
    ensures InZone(Walk(a), z) && Sel(a + b, z) == [] ==> Spots(a + x + b, z) == Copies(|InlineOf(x)|, Breaks(a))
    decreases |b|
  {
    hide Walk, InZone, IsInline, IsBreak, Spots, Sel, InlineOf;
    if b == [] {
      assert a + x + b == a + x && a + b == a;
      SpotsTail(a, x, z);
    } else {
      var b', c := b[..|b| - 1], b[|b| - 1];
      assert a + x + b == a + x + b' + [c] && a + b == a + b' + [c];
      SpotsInsert(a, x, b', z);
      SpotsSnoc(a + b', c, z);
      SpotsSnoc(a + x + b', c, z);
      Snoc(a + b', c, z);
      Insert(a, x, b', z);
    }
  }

  /** The break counts of items that are replaced, each repeated for what replaces it. */
  function Respot(items: seq<Cell>, spots: seq<nat>, m: map<nat, seq<Node>>): seq<nat>
    requires |spots| == |items|
  {
    if items == [] then []
    else
      var n := |items| - 1;
      Respot(items[..n], spots[..n], m) + Copies(|InlineOf(CellSubst(items[n], m))|, spots[n])
  }

  lemma RespotSnoc(items: seq<Cell>, spots: seq<nat>, c: Cell, k: nat, m: map<nat, seq<Node>>)
    requires |spots| == |items|
    ensures Respot(items + [c], spots + [k], m) == Respot(items, spots, m) + Copies(|InlineOf(CellSubst(c, m))|, k)
  {
    hide InlineOf, CellSubst;
    var all, marks := items + [c], spots + [k];
    assert all[..|items|] == items && marks[..|items|] == spots && all[|items|] == c && marks[|items|] == k;
  }

  lemma {:induction false} RespotNone(items: seq<Cell>, spots: seq<nat>, m: map<nat, seq<Node>>)
    requires |spots| == |items| && AllInline(items) && forall i :: 0 <= i < |items| ==> items[i].id !in m
    ensures Respot(items, spots, m) == spots
  {
    hide IsInline, InlineOf, CellSubst;
    if items != [] {
      var n := |items| - 1;
      RespotNone(items[..n], spots[..n], m);
      InlineOfOne(items[n]);
      NotReplaced(items[n], m);
      assert spots[..n] + [spots[n]] == spots;
    }
  }

  lemma NotReplaced(c: Cell, m: map<nat, seq<Node>>)
    requires c.Found? ==> c.id !in m
    ensures CellSubst(c, m) == [c]
  {
  }

  lemma {:induction false} RespotItems(items: seq<Cell>, spots: seq<nat>, k: nat, elements: seq<Node>, n: nat)
    requires 0 < k <= |items| == |spots| && AllInline(items) && Unique(items, n) && (forall i :: 0 <= i < |items| ==> items[i].id < n)
    ensures Respot(items[..k], spots[..k], RewriteMap(items, elements)) == Copies(|InlineOf(OwnAll(elements, items[0].place))|, spots[0])
  {
    hide InlineOf, OwnAll, Unique;
    var m := RewriteMap(items, elements);
    var c := items[k - 1];
    assert items[..k][..k - 1] == items[..k - 1] && spots[..k][..k - 1] == spots[..k - 1];
    assert c.id in Ids(items);
    if k > 1 {
      RespotItems(items, spots, k - 1, elements, n);
      if c.id == items[0].id {
        assert IsInline(items[0]) && IsInline(c);
        SameIndex(items, n, 0, k - 1);
      }
      NothingOwn(c.place);
      NothingInline();
    } else {
      assert Respot(items[..0], spots[..0], m) == [];
    }
  }

  lemma NothingOwn(place: Place)
    ensures OwnAll([], place) == []
  {
  }

  lemma {:induction false} SpotsSubst(cs: seq<Cell>, m: map<nat, seq<Node>>, z: Zone)
    requires QuietMap(cs, m) && Walk(cs).At?
    ensures Breaks(FlatSubst(cs, m)) == Breaks(cs)
    ensures Spots(FlatSubst(cs, m), z) == Respot(Sel(cs, z), Spots(cs, z), m)
  {
    hide IsInline, IsBreak, InlineOf, InZone, Respot, Walk, Sel, Spots, Breaks, FlatSubst, CellSubst;
    if cs == [] {
      NothingSpotted(m, z);
    } else {
      var a, c := cs[..|cs| - 1], cs[|cs| - 1];
      assert cs == a + [c] && forall i :: 0 <= i < |a| ==> a[i] == cs[i];
      Snoc(a, c, z);
      SpotsSnoc(a, c, z);
      SpotsSubst(a, m, z);
      Replace(a, m, z);
      FlatSubstAppend(a, [c], m);
      FlatSubstOne(c, m);
      QuietHere(cs, m);
      SpotsOf(a, FlatSubst(a, m), c, m, z);
      if IsInline(c) && InZone(Walk(a), z) {
        RespotSnoc(Sel(a, z), Spots(a, z), c, Breaks(a), m);
      } else {
        assert Sel(cs, z) == Sel(a, z) && Spots(cs, z) == Spots(a, z);
      }
    }
  }

  lemma NothingSpotted(m: map<nat, seq<Node>>, z: Zone)
    ensures FlatSubst([], m) == [] && Breaks([]) == 0 && Sel([], z) == [] && Spots([], z) == [] && Respot([], [], m) == []
  {
  }

  lemma QuietHere(cs: seq<Cell>, m: map<nat, seq<Node>>)
    requires QuietMap(cs, m) && cs != []
    ensures var c := cs[|cs| - 1]; c.Found? && c.id in m ==> IsInline(c) && Quiet(CellSubst(c, m))
  {
  }

  /** One cell of a replacement. */
  lemma SpotsOf(a: seq<Cell>, fa: seq<Cell>, c: Cell, m: map<nat, seq<Node>>, z: Zone)
    requires Walk(a).At? && Walk(a + [c]).At? && Walk(fa) == Walk(a) && Breaks(fa) == Breaks(a)
    requires c.Found? && c.id in m ==> IsInline(c) && Quiet(CellSubst(c, m))
    ensures Breaks(fa + CellSubst(c, m)) == Breaks(a + [c])
    ensures Spots(fa + CellSubst(c, m), z)
         == Spots(fa, z) + if IsInline(c) && InZone(Walk(a), z) then Copies(|InlineOf(CellSubst(c, m))|, Breaks(a)) else []
  {
    hide Walk, Spots, InlineOf, InZone, OwnAll;
    SpotsSnoc(a, c, z);
    if c.Found? && c.id in m {
      InlineNotInCode(a, c);
      SpotsTail(fa, CellSubst(c, m), z);
    } else {
      SpotsSnoc(fa, c, z);
      InlineOfOne(c);
    }
  }

  lemma InlineNotInCode(a: seq<Cell>, c: Cell)
    requires Walk(a).At? && Walk(a + [c]).At? && IsInline(c)
    ensures !Walk(a).mode.Code?
  {
    hide Walk;
    Snoc(a, c, Zone(0, false));
  }

  // ----- where a link starts and ends -----

  predicate Started(cs: seq<Cell>, i: nat) {
    Walk(cs).At? && (Walk(cs).links > i || (Walk(cs).links == i && !Walk(cs).mode.Plain?))
  }

  /** The cell that opens link `i`. */
  ghost function LinkStart(cs: seq<Cell>, i: nat): (s: nat)
    requires Started(cs, i)
    ensures s < |cs|
  {
    var a := cs[..|cs| - 1];
    if Started(a, i) then LinkStart(a, i) else |a|
  }

  /** The cell that closes link `i`. */
  ghost function LinkEnd(cs: seq<Cell>, i: nat): (e: nat)
    requires Walk(cs).At? && Walk(cs).links > i
    ensures e < |cs|
  {
    var a := cs[..|cs| - 1];
    if Walk(a).links > i then LinkEnd(a, i) else |a|
  }

  function StartKey(a: Anchor): (nat, nat) {
    if a.tag.Some? then (1, a.start) else (0, a.start)
  }

  function EndKey(a: Anchor): (nat, nat) {
    if a.tag.Some? then (2, a.end) else (0, a.end)
  }

  function ModeKey(m: Mode): (nat, nat)
    requires !m.Plain?
  {
    match m
    case Code(begin, _) => (0, begin)
    case Result(begin) => (0, begin)
    case Inside(id, _) => (1, id)
  }

  predicate IsDirect(c: Cell) {
    c.Found? ==> c.place.direct
  }

  lemma OpeningStep(s: Control, c: Cell)
    requires s.At? && s.mode.Plain? && Step(s, c).At? && !Step(s, c).mode.Plain?
    ensures Step(s, c).links == s.links && ModeKey(Step(s, c).mode) == Key(c) && IsDirect(c) && !IsInline(c) && !IsBreak(c)
    ensures Closing(s, c) == []
  {
  }

  lemma InnerStep(s: Control, c: Cell)
    requires s.At? && !s.mode.Plain? && Step(s, c).At?
    ensures Step(s, c).links == s.links ==> !Step(s, c).mode.Plain? && ModeKey(Step(s, c).mode) == ModeKey(s.mode) && Closing(s, c) == []
    ensures Step(s, c).links != s.links ==>
              && Step(s, c) == At(s.links + 1, Plain) && |Closing(s, c)| == 1 && IsDirect(c)
              && StartKey(Closing(s, c)[0]) == ModeKey(s.mode) && EndKey(Closing(s, c)[0]) == Key(c)
  {
  }

  lemma PlainStep(s: Control, c: Cell)
    requires s.At? && s.mode.Plain? && Step(s, c).At? && Step(s, c).mode.Plain?
    ensures Step(s, c) == s && Closing(s, c) == []
  {
  }

  lemma {:induction false} AtStart(cs: seq<Cell>, i: nat)
    requires Started(cs, i)
    ensures var s := LinkStart(cs, i);
            && Walk(cs[..s]) == At(i, Plain) && IsDirect(cs[s])
            && Key(cs[s]) == if Walk(cs).links > i then StartKey(Anchors(cs)[i]) else ModeKey(Walk(cs).mode)
  {
    hide Step, Closing, Key, StartKey, ModeKey, IsDirect;
    var a, c := cs[..|cs| - 1], cs[|cs| - 1];
    StepCase(Walk(a), c);
    if Started(a, i) {
      AtStart(a, i);
      var s := LinkStart(a, i);
      assert a[..s] == cs[..s];
    } else {
      assert Walk(a) == At(i, Plain);
      assert cs[..|a|] == a;
    }
  }

  lemma StepCase(s: Control, c: Cell)
    requires Step(s, c).At?
    ensures s.At?
    ensures s.mode.Plain? && Step(s, c).mode.Plain? ==> Step(s, c) == s && Closing(s, c) == []
    ensures s.mode.Plain? && !Step(s, c).mode.Plain? ==>
              Step(s, c).links == s.links && ModeKey(Step(s, c).mode) == Key(c) && IsDirect(c) && Closing(s, c) == []
    ensures !s.mode.Plain? && Step(s, c).links == s.links ==>
              !Step(s, c).mode.Plain? && ModeKey(Step(s, c).mode) == ModeKey(s.mode) && Closing(s, c) == []
    ensures !s.mode.Plain? && Step(s, c).links != s.links ==>
              && Step(s, c) == At(s.links + 1, Plain) && |Closing(s, c)| == 1 && IsDirect(c)
              && StartKey(Closing(s, c)[0]) == ModeKey(s.mode) && EndKey(Closing(s, c)[0]) == Key(c)
  {
    if s.At? {
      if s.mode.Plain? {
        if Step(s, c).mode.Plain? {
          PlainStep(s, c);
        } else {
          OpeningStep(s, c);
        }
      } else {
        InnerStep(s, c);
      }
    }
  }

  lemma {:induction false} AtEnd(cs: seq<Cell>, i: nat)
    requires Walk(cs).At? && Walk(cs).links > i
    ensures var e := LinkEnd(cs, i);
            Walk(cs[..e + 1]) == At(i + 1, Plain) && IsDirect(cs[e]) && Key(cs[e]) == EndKey(Anchors(cs)[i])
  {
    hide Step, Closing, Key, EndKey, ModeKey, IsDirect;
    var a, c := cs[..|cs| - 1], cs[|cs| - 1];
    StepCase(Walk(a), c);
    if Walk(a).links > i {
      AtEnd(a, i);
      var e := LinkEnd(a, i);
      assert a[..e + 1] == cs[..e + 1];
    } else {
      assert cs[..|a| + 1] == cs;
    }
  }

  /** The breaks before link `i` starts. */
  ghost function StartSpot(cs: seq<Cell>, i: nat): nat
    requires Started(cs, i)
  {
    var a := cs[..|cs| - 1];
    if Started(a, i) then StartSpot(a, i) else Breaks(a)
  }

  /** The breaks before link `i` ends. */
  ghost function EndSpot(cs: seq<Cell>, i: nat): nat
    requires Walk(cs).At? && Walk(cs).links > i
  {
    var a := cs[..|cs| - 1];
    if Walk(a).At? && Walk(a).links > i then EndSpot(a, i) else Breaks(a)
  }

  lemma {:induction false} StartSpotIs(cs: seq<Cell>, i: nat)
    requires Started(cs, i)
    ensures StartSpot(cs, i) == Breaks(cs[..LinkStart(cs, i)])
  {
    hide Breaks, Walk;
    assert LinkStart(cs, i) < |cs|;
    var a := cs[..|cs| - 1];
    if Started(a, i) {
      StartSpotIs(a, i);
      assert a[..LinkStart(a, i)] == cs[..LinkStart(a, i)];
    } else {
      assert cs[..|a|] == a;
    }
  }

  lemma {:induction false} EndSpotIs(cs: seq<Cell>, i: nat)
    requires Walk(cs).At? && Walk(cs).links > i
    ensures EndSpot(cs, i) == Breaks(cs[..LinkEnd(cs, i) + 1])
  {
    hide Breaks, Step, Closing, IsBreak;
    assert LinkEnd(cs, i) < |cs|;
    var a, c := cs[..|cs| - 1], cs[|cs| - 1];
    assert cs == a + [c];
    Snoc(a, c, Zone(0, false));
    StepCase(Walk(a), c);
    if Walk(a).links > i {
      EndSpotIs(a, i);
      assert a[..LinkEnd(a, i) + 1] == cs[..LinkEnd(a, i) + 1];
    } else {
      SpotsSnoc(a, c, Zone(0, false));
      ClosingIsNoBreak(Walk(a), c);
      assert cs[..|a| + 1] == cs;
    }
  }

  lemma ClosingIsNoBreak(s: Control, c: Cell)
    requires s.At? && Step(s, c).At? && Step(s, c).links > s.links
    ensures !IsBreak(c)
  {
  }

  /** The machine, the links and the breaks around them are the same in both walks. */
  ghost predicate SameLinks(cs: seq<Cell>, cs': seq<Cell>) {
    && Walk(cs') == Walk(cs) && Anchors(cs') == Anchors(cs) && Breaks(cs') == Breaks(cs) && NestedLinks(cs') == NestedLinks(cs)
    && (forall i: nat :: Started(cs, i) ==> StartSpot(cs', i) == StartSpot(cs, i))
    && (forall i: nat :: Walk(cs).At? && Walk(cs).links > i ==> EndSpot(cs', i) == EndSpot(cs, i))
  }

  lemma LinkSpotsSnoc(a: seq<Cell>, c: Cell, i: nat)
    ensures Started(a + [c], i) ==> StartSpot(a + [c], i) == if Started(a, i) then StartSpot(a, i) else Breaks(a)
    ensures Walk(a + [c]).At? && Walk(a + [c]).links > i ==>
              EndSpot(a + [c], i) == if Walk(a).At? && Walk(a).links > i then EndSpot(a, i) else Breaks(a)
  {
    hide Walk, Breaks;
    assert (a + [c])[..|a + [c]| - 1] == a && (a + [c])[|a + [c]| - 1] == c;
  }

  /** Adding the same cell to both walks. */
  lemma SameLinksSnoc(a: seq<Cell>, a': seq<Cell>, c: Cell)
    requires SameLinks(a, a')
    ensures SameLinks(a + [c], a' + [c])
  {
    hide Walk, Breaks, Anchors, StartSpot, EndSpot, NestedLinks;
    SameLinksStep(a, a', c);
    forall i: nat
      ensures Started(a + [c], i) ==> StartSpot(a' + [c], i) == StartSpot(a + [c], i)
      ensures Walk(a + [c]).At? && Walk(a + [c]).links > i ==> EndSpot(a' + [c], i) == EndSpot(a + [c], i)
    {
      LinkSpotsSnoc(a, c, i);
      LinkSpotsSnoc(a', c, i);
    }
  }

  lemma SameLinksStep(a: seq<Cell>, a': seq<Cell>, c: Cell)
    requires Walk(a') == Walk(a) && Anchors(a') == Anchors(a) && Breaks(a') == Breaks(a) && NestedLinks(a') == NestedLinks(a)
    ensures Walk(a' + [c]) == Walk(a + [c]) && Anchors(a' + [c]) == Anchors(a + [c])
    ensures Breaks(a' + [c]) == Breaks(a + [c]) && NestedLinks(a' + [c]) == NestedLinks(a + [c])
  {
    hide Walk, Breaks, Anchors, Step, Closing, IsBreak, NestedLinks;
    Snoc(a, c, Zone(0, false));
    Snoc(a', c, Zone(0, false));
    SpotsSnoc(a, c, Zone(0, false));
    SpotsSnoc(a', c, Zone(0, false));
    NestedSnoc(a, c);
    NestedSnoc(a', c);
  }

  lemma SameLinksQuiet(a: seq<Cell>, c: Cell)
    requires Walk(a).At? && !Walk(a).mode.Code? && c.Found? && (c.leaf.Text? || c.leaf.Glyph?)
    ensures SameLinks(a, a + [c])
  {
    hide Walk, Breaks, Anchors, StartSpot, EndSpot, Step, Closing;
    Snoc(a, c, Zone(0, false));
    QuietStep(Walk(a), c);
    SpotsSnoc(a, c, Zone(0, false));
    NestedSnoc(a, c);
    forall i: nat
      ensures Started(a, i) ==> StartSpot(a + [c], i) == StartSpot(a, i)
      ensures Walk(a).links > i ==> EndSpot(a + [c], i) == EndSpot(a, i)
    {
      LinkSpotsSnoc(a, c, i);
    }
  }

  lemma {:induction false} SameLinksTail(a: seq<Cell>, a': seq<Cell>, x: seq<Cell>)
    requires SameLinks(a, a') && Walk(a).At? && !Walk(a).mode.Code? && Quiet(x)
    ensures SameLinks(a, a' + x)
    decreases |x|
  {
    if x == [] {
      assert a' + x == a';
    } else {
      hide Walk, Breaks, Anchors, StartSpot, EndSpot;
      var x', c := x[..|x| - 1], x[|x| - 1];
      assert a' + x == a' + x' + [c];
      SameLinksTail(a, a', x');
      SameLinksQuiet(a' + x', c);
    }
  }

  lemma {:induction false} SameLinksInsert(a: seq<Cell>, x: seq<Cell>, b: seq<Cell>)
    requires Quiet(x) && Walk(a).At? && !Walk(a).mode.Code?
    ensures SameLinks(a + b, a + x + b)
    decreases |b|
  {
    hide Walk, Breaks, Anchors, StartSpot, EndSpot;
    if b == [] {
      assert a + x + b == a + x && a + b == a;
      SameLinksTail(a, a, x);
    } else {
      var b', c := b[..|b| - 1], b[|b| - 1];
      assert a + x + b == a + x + b' + [c] && a + b == a + b' + [c];
      SameLinksInsert(a, x, b');
      SameLinksSnoc(a + b', a + x + b', c);
    }
  }

  lemma {:induction false} SameLinksSubst(cs: seq<Cell>, m: map<nat, seq<Node>>)
    requires QuietMap(cs, m) && Walk(cs).At?
    ensures SameLinks(cs, FlatSubst(cs, m))
  {
    if cs != [] {
      hide Walk, Breaks, Anchors, StartSpot, EndSpot, IsInline, FlatSubst, CellSubst, SameLinks;
      var a, c := cs[..|cs| - 1], cs[|cs| - 1];
      assert cs == a + [c] && forall i :: 0 <= i < |a| ==> a[i] == cs[i];
      Snoc(a, c, Zone(0, false));
      SameLinksSubst(a, m);
      FlatSubstAppend(a, [c], m);
      FlatSubstOne(c, m);
      QuietHere(cs, m);
      SameLinksOf(a, FlatSubst(a, m), c, m);
    }
  }

  lemma SameLinksOf(a: seq<Cell>, fa: seq<Cell>, c: Cell, m: map<nat, seq<Node>>)
    requires SameLinks(a, fa) && Walk(a).At? && Walk(a + [c]).At?
    requires c.Found? && c.id in m ==> IsInline(c) && Quiet(CellSubst(c, m))
    ensures SameLinks(a + [c], fa + CellSubst(c, m))
  {
    hide Walk, Breaks, Anchors, StartSpot, EndSpot, OwnAll;
    if c.Found? && c.id in m {
      InlineNotInCode(a, c);
      SameLinksTail(a, fa, CellSubst(c, m));
      SameLinksQuiet(a, c);
    } else {
      SameLinksSnoc(a, fa, c);
    }
  }

  // ----- where an inserted run lands -----

  lemma {:induction false} NotDirect(n: Node, place: Place, k: nat)
    requires !place.direct && k < |Own(n, place)| && Own(n, place)[k].Found?
    ensures !Own(n, place)[k].place.direct
    decreases n, 1
  {
    if n.Element? && !IsForeign(n.tag) {
      var head := if IsLinkTag(n.tag) then 1 else 0;
      if k >= head {
        NotDirectAll(n.kids, Place(n.tag.Run?, false, place.alternate || n.tag.AlternateContent?), k - head);
      }
    }
  }

  lemma {:induction false} NotDirectAll(ns: seq<Node>, place: Place, k: nat)
    requires !place.direct && k < |OwnAll(ns, place)| && OwnAll(ns, place)[k].Found?
    ensures !OwnAll(ns, place)[k].place.direct
    decreases ns, 0
  {
    var head := Own(ns[0], place);
    if k < |head| {
      NotDirect(ns[0], place, k);
    } else {
      NotDirectAll(ns[1..], place, k - |head|);
    }
  }

  lemma {:induction false} DirectItem(ns: seq<Node>, k: nat)
    requires k < |OwnAll(ns, IN_RUN)| && OwnAll(ns, IN_RUN)[k].Found? && OwnAll(ns, IN_RUN)[k].place.direct
    ensures IndexOfItem(ns, OwnAll(ns, IN_RUN)[k].id).Some?
  {
    var head := Own(ns[0], IN_RUN);
    if k < |head| {
      if ns[0].Element? {
        ElementNotDirect(ns[0], k);
      }
    } else {
      DirectItem(ns[1..], k - |head|);
    }
  }

  lemma ElementNotDirect(n: Node, k: nat)
    requires n.Element? && k < |Own(n, IN_RUN)| && Own(n, IN_RUN)[k].Found?
    ensures !Own(n, IN_RUN)[k].place.direct
  {
    if !IsForeign(n.tag) {
      var head := if IsLinkTag(n.tag) then 1 else 0;
      if k >= head {
        NotDirectAll(n.kids, Place(n.tag.Run?, false, IN_RUN.alternate || n.tag.AlternateContent?), k - head);
      }
    }
  }

  lemma {:induction false} FieldIsLocated(kids: seq<Node>, k: nat)
    requires k < |Cells(kids)| && Cells(kids)[k].Found? && Cells(kids)[k].place.direct
    ensures LocateField(kids, Cells(kids)[k].id).Some?
  {
    var child, head := kids[0], ChildCells(kids[0]);
    if k >= |head| {
      FieldIsLocated(kids[1..], k - |head|);
    } else if child.Element? && child.tag.Run? {
      DirectItem(child.kids, k);
    } else if child.Element? && IsLinkTag(child.tag) {
      var inner := OwnAll(child.kids, TOP);
      assert head[k] == inner[k - 1];
      NotDirectAll(child.kids, TOP, k - 1);
    } else {
      NotDirect(child, TOP, k);
    }
  }

  lemma LinkCellId(child: Node, k: nat)
    requires child.Element? && IsLinkTag(child.tag) && k < |ChildCells(child)|
    ensures var c := ChildCells(child)[k]; c.Open? || c.Close? ==> c.id == child.id
  {
    OwnAllHasNoChildren(child.kids, TOP);
    var inner := OwnAll(child.kids, TOP);
    assert 0 < k <= |inner| ==> ChildCells(child)[k] == inner[k - 1];
  }

  lemma {:induction false} LinkIsLocated(kids: seq<Node>, k: nat)
    requires k < |Cells(kids)| && (Cells(kids)[k].Open? || Cells(kids)[k].Close?)
    ensures LocateLink(kids, Cells(kids)[k].id).Some?
  {
    var child, head := kids[0], ChildCells(kids[0]);
    if k >= |head| {
      LinkIsLocated(kids[1..], k - |head|);
    } else if child.Element? && IsLinkTag(child.tag) {
      LinkCellId(child, k);
    } else {
      ChildHasNoChildren(child, k);
    }
  }

  lemma CutAt<T>(s: seq<T>, k: nat)
    requires k < |s|
    ensures s[..k + 1] + s[k + 1..] == s && s[..k] + [s[k]] == s[..k + 1] && [s[k]] + s[k + 1..] == s[k..]
  {
  }

  /** The cells before and after child `k`. */
  lemma AroundChild(kids: seq<Node>, k: nat)
    requires k < |kids|
    ensures Cells(kids) == Cells(kids[..k]) + ChildCells(kids[k]) + Cells(kids[k + 1..])
    ensures Cells(kids[..k + 1]) == Cells(kids[..k]) + ChildCells(kids[k])
    ensures Cells(kids[k..]) == ChildCells(kids[k]) + Cells(kids[k + 1..])
  {
    hide ChildCells, Cells;
    CutAt(kids, k);
    CellsAppend(kids[..k + 1], kids[k + 1..]);
    CellsAppend(kids[..k], [kids[k]]);
    CellsAppend([kids[k]], kids[k + 1..]);
    CellsOne(kids[k]);
  }

  /** Splitting a run changes nothing in the walk. */
  lemma SplitKeepsCells(p: Para, k: nat, j: nat)
    requires k < |p.kids| && p.kids[k].Element? && p.kids[k].tag.Run? && j <= |p.kids[k].kids|
    ensures var q := SplitRun(p, k, j);
            && Cells(q.kids) == Cells(p.kids)
            && Cells(q.kids[..k + 1]) == Cells(p.kids[..k]) + OwnAll(p.kids[k].kids[..j], IN_RUN)
            && Cells(q.kids[k + 1..]) == OwnAll(p.kids[k].kids[j..], IN_RUN) + Cells(p.kids[k + 1..])
  {
    hide Cells, OwnAll;
    var q, run := SplitRun(p, k, j), p.kids[k];
    var left, right := q.kids[k], q.kids[k + 1];
    AroundChild(p.kids, k);
    assert run.kids == run.kids[..j] + run.kids[j..];
    OwnAllAppend(run.kids[..j], run.kids[j..], IN_RUN);
    AroundChild(q.kids, k);
    AroundChild(q.kids, k + 1);
    assert q.kids[..k] == p.kids[..k] && q.kids[k + 2..] == p.kids[k + 1..];
    RunCells(run);
    RunCells(left);
    RunCells(right);
  }

  lemma RunCells(run: Node)
    requires run.Element? && run.tag.Run?
    ensures ChildCells(run) == OwnAll(run.kids, IN_RUN)
  {
  }

  lemma InsertedCells(p: Para, k: nat, run: Node)
    requires k <= |p.kids| && run.Element? && run.tag.Run?
    ensures Cells(InsertAt(p, k, run).kids) == Cells(p.kids[..k]) + OwnAll(run.kids, IN_RUN) + Cells(p.kids[k..])
  {
    CellsAppend(p.kids[..k] + [run], p.kids[k..]);
    CellsAppend(p.kids[..k], [run]);
    CellsOne(run);
  }

  lemma AroundItem(ns: seq<Node>, j: nat)
    requires j < |ns| && ns[j].Item?
    ensures var c := Found(ns[j].id, ns[j].leaf, IN_RUN);
            && OwnAll(ns[..j + 1], IN_RUN) == OwnAll(ns[..j], IN_RUN) + [c]
            && OwnAll(ns[j..], IN_RUN) == [c] + OwnAll(ns[j + 1..], IN_RUN)
  {
    hide OwnAll;
    CutAt(ns, j);
    OwnAllAppend(ns[..j], [ns[j]], IN_RUN);
    OwnAllAppend([ns[j]], ns[j + 1..], IN_RUN);
    OwnAllOne(ns[j], IN_RUN);
  }

  /** Where an inserted run lands: the walk before it, the walk after it, and the anchor next to it. */
  ghost predicate Lands(cs: seq<Cell>, left: seq<Cell>, right: seq<Cell>, before: bool, key: (nat, nat)) {
    && cs == left + right
    && (before ==> right != [] && Key(right[0]) == key)
    && (!before ==> left != [] && Key(left[|left| - 1]) == key)
  }

  lemma LinkSides(kids: seq<Node>, k: nat, before: bool)
    requires k < |kids| && kids[k].Element? && IsLinkTag(kids[k].tag)
    ensures var position := if before then k else k + 1;
            Lands(Cells(kids), Cells(kids[..position]), Cells(kids[position..]), before, (if before then 1 else 2, kids[k].id))
  {
    hide Cells, OwnAll;
    AroundChild(kids, k);
    var inner := OwnAll(kids[k].kids, TOP);
    assert ChildCells(kids[k]) == [Open(kids[k].id, kids[k].tag)] + inner + [Close(kids[k].id)];
    hide ChildCells;
    var position := if before then k else k + 1;
    var left, right := Cells(kids[..position]), Cells(kids[position..]);
    assert before ==> right[0] == Open(kids[k].id, kids[k].tag);
    assert !before ==> left[|left| - 1] == Close(kids[k].id);
  }

  /** The field character at `j` of run `k` starts or ends its run after the split. */
  lemma SplitSides(p: Para, k: nat, j: nat, before: bool)
    requires k < |p.kids| && p.kids[k].Element? && p.kids[k].tag.Run? && j < |p.kids[k].kids| && p.kids[k].kids[j].Item?
    ensures var cut := if before then j else j + 1;
            var q := SplitRun(p, k, cut).kids;
            Lands(Cells(p.kids), Cells(q[..k + 1]), Cells(q[k + 1..]), before, (0, p.kids[k].kids[j].id))
  {
    hide Cells, OwnAll, ChildCells;
    var cut := if before then j else j + 1;
    SplitKeepsCells(p, k, cut);
    AroundItem(p.kids[k].kids, j);
    var q := SplitRun(p, k, cut).kids;
    assert q == q[..k + 1] + q[k + 1..];
    CellsAppend(q[..k + 1], q[k + 1..]);
  }

  lemma WholeSides(p: Para, k: nat, j: nat, before: bool)
    requires k < |p.kids| && p.kids[k].Element? && p.kids[k].tag.Run? && j < |p.kids[k].kids| && p.kids[k].kids[j].Item?
    requires if before then j == 0 else j + 1 == |p.kids[k].kids|
    ensures var position := if before then k else k + 1;
            Lands(Cells(p.kids), Cells(p.kids[..position]), Cells(p.kids[position..]), before, (0, p.kids[k].kids[j].id))
  {
    hide Cells, OwnAll, ChildCells;
    var ks := p.kids[k].kids;
    AroundChild(p.kids, k);
    RunCells(p.kids[k]);
    AroundItem(ks, j);
    assert ks[0..] == ks && ks[..|ks|] == ks;
  }

  lemma FieldSides(p: Para, k: nat, j: nat, before: bool)
    requires k < |p.kids| && p.kids[k].Element? && p.kids[k].tag.Run? && j < |p.kids[k].kids| && p.kids[k].kids[j].Item?
    ensures var (q, at) := FieldBoundaryRun(p, k, j, before);
            var position := if before then at else at + 1;
            Lands(Cells(p.kids), Cells(q.kids[..position]), Cells(q.kids[position..]), before, (0, p.kids[k].kids[j].id))
  {
    hide Lands, SplitRun, Cells;
    if if before then j == 0 else j + 1 == |p.kids[k].kids| {
      WholeSides(p, k, j, before);
    } else {
      SplitSides(p, k, j, before);
    }
  }

  /** An inserted run lands directly before the start or after the end of its link. */
  lemma RunLands(p: Para, value: string, anchor: Anchor, before: bool, k: nat) returns (left: seq<Cell>, right: seq<Cell>)
    requires value != "" && k < |Cells(p.kids)| && IsDirect(Cells(p.kids)[k])
    requires Key(Cells(p.kids)[k]) == if before then StartKey(anchor) else EndKey(anchor)
    ensures Lands(Cells(p.kids), left, right, before, if before then StartKey(anchor) else EndKey(anchor))
    ensures Cells(InsertPlainRun(p, value, anchor, before).kids) == left + OwnAll(InlineElements(value, p.next), IN_RUN) + right
  {
    hide InlineElements, OwnAll, Cells, FieldBoundaryRun, InsertAt, Lands;
    var elements := InlineElements(value, p.next);
    var run := Element(p.next + |elements|, DocxTree.Run(""), elements);
    var q := Para(p.kids, p.next + |elements| + 1);
    var id := if before then anchor.start else anchor.end;
    if anchor.tag.Some? {
      LinkIsLocated(p.kids, k);
      var at := LocateLink(p.kids, id).value;
      LinkSides(p.kids, at, before);
      var position := if before then at else at + 1;
      InsertedCells(q, position, run);
      left, right := Cells(p.kids[..position]), Cells(p.kids[position..]);
    } else {
      FieldIsLocated(p.kids, k);
      var (at, j) := LocateField(p.kids, id).value;
      FieldSides(q, at, j, before);
      var (split, found) := FieldBoundaryRun(q, at, j, before);
      var position := if before then found else found + 1;
      InsertedCells(split, position, run);
      left, right := Cells(split.kids[..position]), Cells(split.kids[position..]);
    }
  }
}
