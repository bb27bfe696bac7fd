/**
 `_patch_paragraph` as a whole: after it every stretch holds its new text, and the links, field codes and
 breaks are the ones the template had.
 */
module DocxRewrite {
  import opened DocxLinks
  import opened DocxTree
  import opened DocxLayout
  import opened DocxPatch
  import opened DocxEdits

  /** Where new text for a stretch is put: with its first item, or in a run of its own. */
  function SlotPlace(items: seq<Cell>): Place
    requires AllInline(items)
  {
    if items == [] then IN_RUN else items[0].place
  }

  /**
   What writing `value` makes of a stretch and of the breaks before its items: unchanged text keeps its items, any
   other text gets new ones, all in one place and all after `slot` breaks. Outside a run special characters are lost.
   */
  ghost predicate Renewed(items: seq<Cell>, spots: seq<nat>, items': seq<Cell>, spots': seq<nat>, value: string, slot: nat)
    requires AllInline(items) && AllInline(items')
  {
    if TextOf(items) == value then items' == items && spots' == spots
    else
      && TextOf(items') == Seen(value, SlotPlace(items).inRun) && Crisp(items')
      && (forall i :: 0 <= i < |items'| ==> items'[i].place == SlotPlace(items) && ItemText(items'[i]) != "")
      && (forall i :: 0 <= i < |spots'| ==> spots'[i] == slot)
  }

  /** The walk changed in stretch `z` only. */
  ghost predicate Edited(cs: seq<Cell>, cs': seq<Cell>, z: Zone, value: string, slot: nat, n: nat) {
    && SameLinks(cs, cs') && Unique(cs', n)
    && Renewed(Sel(cs, z), Spots(cs, z), Sel(cs', z), Spots(cs', z), value, slot)
    && (forall z' :: z' != z ==> Sel(cs', z') == Sel(cs, z') && Spots(cs', z') == Spots(cs, z'))
  }

  /** Only the items of the stretch carry the identities being replaced. */
  lemma OnlyItems(cs: seq<Cell>, z: Zone, n: nat, i: nat)
    requires Unique(cs, n) && i < |cs| && cs[i].Found? && cs[i].id in Ids(Sel(cs, z)) && cs[i].id < n
    ensures cs[i] in Sel(cs, z)
  {
    var items := Sel(cs, z);
    SelKeys(cs, z, n);
    var k :| 0 <= k < |items| && items[k].id == cs[i].id;
    assert items[k] in cs && IsInline(items[k]);
    var j :| 0 <= j < |cs| && cs[j] == items[k];
    if i <= j {
      SameIndex(cs, n, i, j);
    } else {
      SameIndex(cs, n, j, i);
    }
  }

  ghost predicate Replaceable(cs: seq<Cell>, m: map<nat, seq<Node>>, n: nat) {
    ItemsOnly(m) && QuietMap(cs, m) && NewMap(cs, m, n)
  }

  lemma MapIsReplaceable(cs: seq<Cell>, z: Zone, value: string, next: nat, n: nat)
    requires Unique(cs, n) && n <= next && Sel(cs, z) != []
    requires forall i :: 0 <= i < |Sel(cs, z)| ==> Sel(cs, z)[i].id < n
    ensures Replaceable(cs, RewriteMap(Sel(cs, z), InlineElements(value, next)), n)
  {
    hide InlineElements, Unique, Sel, TextOf, ItemText, OwnAll, Ordinary;
    var items, elements := Sel(cs, z), InlineElements(value, next);
    var m := RewriteMap(items, elements);
    forall i | 0 <= i < |cs| && cs[i].Found? && cs[i].id in m
      ensures IsInline(cs[i])
      ensures var x := OwnAll(m[cs[i].id], cs[i].place); Quiet(x) && NewCells(x, n)
    {
      OnlyItems(cs, z, n, i);
      NewElements(value, next, cs[i].place);
      NothingOwn(cs[i].place);
    }
  }

  /** The new items of a rewritten stretch. */
  lemma RewrittenItems(items: seq<Cell>, spots: seq<nat>, value: string, next: nat, n: nat)
    requires AllInline(items) && items != [] && |spots| == |items| && TextOf(items) != value && Unique(items, n)
    requires forall i :: 0 <= i < |items| ==> items[i].id < n
    ensures var m := RewriteMap(items, InlineElements(value, next));
            Renewed(items, spots, InlineOf(FlatSubst(items, m)), Respot(items, spots, m), value, spots[0])
  {
    hide Unique, FlatSubst, InlineElements, OwnAll, TextOf, Crisp, Respot, InlineOf, ItemText;
    var elements := InlineElements(value, next);
    var x := OwnAll(elements, items[0].place);
    NewElements(value, next, items[0].place);
    SubstItems(items, |items|, elements, n);
    RespotItems(items, spots, |items|, elements, n);
    assert items[..|items|] == items && spots[..|items|] == spots;
    NewInline(x);
  }

  lemma NewInline(x: seq<Cell>)
    ensures Crisp(x) ==> Crisp(InlineOf(x))
    ensures forall i :: 0 <= i < |InlineOf(x)| ==> InlineOf(x)[i] in x
  {
    hide InlineOf;
    forall i | 0 <= i < |InlineOf(x)|
      ensures InlineOf(x)[i] in x
    {
      InlineOfIn(x, InlineOf(x)[i]);
    }
  }

  /** `_rewrite_items` changes its own stretch only. */
  lemma RewriteEdits(p: Para, z: Zone, value: string, n: nat)
    requires var cs := Cells(p.kids);
             && Walk(cs).At? && Unique(cs, n) && n <= p.next && Sel(cs, z) != []
             && forall i :: 0 <= i < |Sel(cs, z)| ==> Sel(cs, z)[i].id < n
    ensures var q := RewriteItems(p, Sel(Cells(p.kids), z), value);
            Edited(Cells(p.kids), Cells(q.kids), z, value, Spots(Cells(p.kids), z)[0], n) && q.next >= p.next
  {
    hide Walk, Sel, Unique, Anchors, FlatSubst, SubstAll, InlineElements, RewriteMap, OwnAll, Cells, TextOf, Crisp, Spots, Breaks, SameLinks,
         Respot, InlineOf, Renewed;
    var cs := Cells(p.kids);
    var items := Sel(cs, z);
    if TextOf(items) != value {
      var elements := InlineElements(value, p.next);
      var m := RewriteMap(items, elements);
      MapIsReplaceable(cs, z, value, p.next, n);
      CellsSubst(p.kids, m);
      UniqueSubst(cs, m, n);
      SameLinksSubst(cs, m);
      forall z' | z' != z
        ensures Sel(FlatSubst(cs, m), z') == Sel(cs, z') && Spots(FlatSubst(cs, m), z') == Spots(cs, z')
      {
        Replace(cs, m, z');
        SpotsSubst(cs, m, z');
        OtherZones(cs, z, z', elements, n);
      }
      Replace(cs, m, z);
      SpotsSubst(cs, m, z);
      SelKeys(cs, z, n);
      RewrittenItems(items, Spots(cs, z), value, p.next, n);
    } else {
      Untouched(cs, z, value, n);
    }
  }

  lemma Untouched(cs: seq<Cell>, z: Zone, value: string, n: nat)
    requires Unique(cs, n) && TextOf(Sel(cs, z)) == value
    ensures forall slot :: Edited(cs, cs, z, value, slot, n)
  {
  }

  lemma OtherZones(cs: seq<Cell>, z: Zone, z': Zone, elements: seq<Node>, n: nat)
    requires Unique(cs, n) && z != z' && Sel(cs, z) != []
    requires forall i :: 0 <= i < |Sel(cs, z)| ==> Sel(cs, z)[i].id < n
    ensures var m := RewriteMap(Sel(cs, z), elements);
            InlineOf(FlatSubst(Sel(cs, z'), m)) == Sel(cs, z') && Respot(Sel(cs, z'), Spots(cs, z'), m) == Spots(cs, z')
  {
    var items, others := Sel(cs, z), Sel(cs, z');
    var m := RewriteMap(items, elements);
    forall i | 0 <= i < |others| && others[i].Found?
      ensures others[i].id !in m
    {
      KeyHere(others, i);
      if others[i].id in m {
        var k :| 0 <= k < |items| && items[k].id == others[i].id;
        KeyHere(items, k);
        assert IsInline(items[k]);
        ZonesApart(cs, z, z', n, items[k].id);
      }
    }
    hide Sel, Spots, FlatSubst, Respot, InlineOf;
    FlatSubstNone(others, m);
    InlineOfInline(others);
    RespotNone(others, Spots(cs, z'), m);
  }

  /** `_insert_plain_run` gives an empty stretch its text, before a link or after the last one. */
  lemma InsertEdits(p: Para, i: nat, value: string, before: bool, n: nat)
    requires var cs := Cells(p.kids);
             && Walk(cs).At? && i < Walk(cs).links && Unique(cs, n) && n <= p.next
             && Anchors(cs)[i].start < n && Anchors(cs)[i].end < n
             && Sel(cs, Zone(if before then i else i + 1, false)) == []
    ensures var cs, q := Cells(p.kids), InsertPlainRun(p, value, Anchors(Cells(p.kids))[i], before);
            && Edited(cs, Cells(q.kids), Zone(if before then i else i + 1, false), value, if before then StartSpot(cs, i) else EndSpot(cs, i), n)
            && q.next >= p.next
  {
    hide Walk, Sel, Unique, Anchors, InlineElements, OwnAll, Cells, Breaks, IsDirect, Key, StartKey, EndKey, Spots, StartSpot, EndSpot, Edited;
    var cs := Cells(p.kids);
    var anchor := Anchors(cs)[i];
    if value != "" {
      AtStart(cs, i);
      AtEnd(cs, i);
      StartSpotIs(cs, i);
      EndSpotIs(cs, i);
      var s, e := LinkStart(cs, i), LinkEnd(cs, i);
      var left, right := RunLands(p, value, anchor, before, if before then s else e);
      LandsHere(cs, left, right, before, if before then s else e, n, anchor);
      NewElements(value, p.next, IN_RUN);
      var x := OwnAll(InlineElements(value, p.next), IN_RUN);
      InsertHere(cs, left, right, x, Zone(if before then i else i + 1, false), value, n);
    } else {
      Untouched(cs, Zone(if before then i else i + 1, false), value, n);
    }
    InsertNext(p, value, anchor, before);
  }

  lemma InsertNext(p: Para, value: string, anchor: Anchor, before: bool)
    ensures InsertPlainRun(p, value, anchor, before).next >= p.next
  {
  }

  /** The anchor is found where the link starts or ends, as its identity is unique. */
  lemma LandsHere(cs: seq<Cell>, left: seq<Cell>, right: seq<Cell>, before: bool, k: nat, n: nat, anchor: Anchor)
    requires Lands(cs, left, right, before, if before then StartKey(anchor) else EndKey(anchor))
    requires k < |cs| && Key(cs[k]) == (if before then StartKey(anchor) else EndKey(anchor))
    requires Unique(cs, n) && anchor.start < n && anchor.end < n
    ensures left == if before then cs[..k] else cs[..k + 1]
  {
    hide Unique;
    var t := if before then |left| else |left| - 1;
    assert Key(cs[t]) == Key(cs[k]);
    assert cs[k].id < n && cs[t].id < n;
    if t <= k {
      SameIndex(cs, n, t, k);
    } else {
      SameIndex(cs, n, k, t);
    }
  }

  lemma InsertHere(cs: seq<Cell>, left: seq<Cell>, right: seq<Cell>, x: seq<Cell>, z: Zone, value: string, n: nat)
    requires cs == left + right && value != "" && Quiet(x) && Crisp(x) && NewCells(x, n) && TextOf(InlineOf(x)) == value
    requires forall i :: 0 <= i < |x| ==> x[i].place == IN_RUN && (IsInline(x[i]) ==> ItemText(x[i]) != "")
    requires Walk(left) == At(z.index, Plain) && !z.link && Sel(cs, z) == [] && Walk(cs).At? && Unique(cs, n)
    ensures Edited(cs, left + x + right, z, value, Breaks(left), n)
  {
    hide Walk, Sel, Unique, Anchors, Breaks, TextOf, Crisp, Spots, SameLinks, InlineOf, ItemText, Renewed;
    UniqueInsert(left, x, right, n);
    SameLinksInsert(left, x, right);
    Insert(left, x, right, z);
    SpotsInsert(left, x, right, z);
    InsertedItems(x, value, Breaks(left));
    assert Spots(cs, z) == [];
    forall z' | z' != z
      ensures Sel(left + x + right, z') == Sel(cs, z') && Spots(left + x + right, z') == Spots(cs, z')
    {
      Insert(left, x, right, z');
      SpotsInsert(left, x, right, z');
    }
  }

  lemma InsertedItems(x: seq<Cell>, value: string, slot: nat)
    requires value != "" && Quiet(x) && Crisp(x) && TextOf(InlineOf(x)) == value
    requires forall i :: 0 <= i < |x| ==> x[i].place == IN_RUN && (IsInline(x[i]) ==> ItemText(x[i]) != "")
    ensures Renewed([], [], InlineOf(x), Copies(|InlineOf(x)|, slot), value, slot)
  {
    assert TextOf([]) == "";
    hide TextOf, Crisp, InlineOf, ItemText, IsInline, Quiet;
    NewInline(x);
    var items := InlineOf(x);
    forall i | 0 <= i < |items|
      ensures items[i].place == IN_RUN && ItemText(items[i]) != ""
    {
      var k :| 0 <= k < |x| && x[k] == items[i];
      assert IsInline(items[i]);
    }
  }

  // ----- all stretches -----

  /** The stretch that step `k` rewrites, for a paragraph with `links` links. */
  function ZoneOf(links: nat, k: nat): Zone {
    if k <= links then Zone(k, false) else Zone(k - links - 1, true)
  }

  function ValueOf(parts: Parts, k: nat): string
    requires |parts.plain| == |parts.links| + 1 && k < |parts.plain| + |parts.links|
  {
    if k < |parts.plain| then parts.plain[k] else parts.links[k - |parts.plain|].1
  }

  /** The paragraph is read without trouble and its elements are distinct. */
  ghost predicate Readable(p: Para) {
    var cs := Cells(p.kids);
    Walk(cs).At? && Walk(cs).mode.Plain? && Unique(cs, p.next) && forall i :: 0 <= i < |cs| ==> cs[i].id < p.next
  }

  /** How many breaks come before new text of stretch `k`: at its first item, or around the next link. */
  ghost function Slot(cs: seq<Cell>, k: nat): nat
    requires Walk(cs).At? && k < 2 * Walk(cs).links + 1
  {
    var links := Walk(cs).links;
    var z := ZoneOf(links, k);
    if Sel(cs, z) != [] then Spots(cs, z)[0]
    else if k < links then StartSpot(cs, k)
    else if k == links && links > 0 then EndSpot(cs, links - 1)
    else 0
  }

  ghost predicate Written(cs0: seq<Cell>, cs: seq<Cell>, parts: Parts, j: nat)
    requires Walk(cs0).At? && |parts.links| == Walk(cs0).links && |parts.plain| == |parts.links| + 1 && j < 2 * |parts.links| + 1
  {
    var z := ZoneOf(|parts.links|, j);
    Renewed(Sel(cs0, z), Spots(cs0, z), Sel(cs, z), Spots(cs, z), ValueOf(parts, j), Slot(cs0, j))
  }

  /** After `k` steps the first `k` stretches are written and the others are as they were. */
  ghost predicate Progress(cs0: seq<Cell>, q: Para, parts: Parts, k: nat, n: nat)
    requires Walk(cs0).At? && |parts.links| == Walk(cs0).links && |parts.plain| == |parts.links| + 1
  {
    var cs := Cells(q.kids);
    var links := |parts.links|;
    && SameLinks(cs0, cs) && Unique(cs, n) && q.next >= n
    && (forall j: nat :: j < k && j < 2 * links + 1 ==> Written(cs0, cs, parts, j))
    && (forall j: nat :: k <= j < 2 * links + 1 ==> Sel(cs, ZoneOf(links, j)) == Sel(cs0, ZoneOf(links, j)) && Spots(cs, ZoneOf(links, j)) == Spots(cs0, ZoneOf(links, j)))
  }

  lemma EditProgress(cs0: seq<Cell>, q: Para, q': Para, parts: Parts, k: nat, n: nat)
    requires Walk(cs0).At? && |parts.links| == Walk(cs0).links && |parts.plain| == |parts.links| + 1 && k < 2 * |parts.links| + 1
    requires Progress(cs0, q, parts, k, n)
    requires Edited(Cells(q.kids), Cells(q'.kids), ZoneOf(|parts.links|, k), ValueOf(parts, k), Slot(cs0, k), n)
    requires q'.next >= n
    ensures Progress(cs0, q', parts, k + 1, n)
  {
    hide Walk, Anchors, Unique, Sel, Cells, TextOf, Spots, SameLinks, Renewed, Slot;
    SameLinksChain(cs0, Cells(q.kids), Cells(q'.kids));
    var cs, cs', links := Cells(q.kids), Cells(q'.kids), |parts.links|;
    forall j: nat | j < 2 * links + 1 && j != k
      ensures Sel(cs', ZoneOf(links, j)) == Sel(cs, ZoneOf(links, j)) && Spots(cs', ZoneOf(links, j)) == Spots(cs, ZoneOf(links, j))
    {
      assert ZoneOf(links, j) != ZoneOf(links, k);
    }
    forall j: nat | j < k + 1 && j < 2 * links + 1
      ensures Written(cs0, cs', parts, j)
    {
      assert j < k ==> Written(cs0, cs, parts, j);
    }
  }

  lemma SameLinksChain(a: seq<Cell>, b: seq<Cell>, c: seq<Cell>)
    requires SameLinks(a, b) && SameLinks(b, c)
    ensures SameLinks(a, c)
  {
    hide Walk, Anchors, Breaks, StartSpot, EndSpot;
  }

  lemma OwnIds(cs: seq<Cell>, z: Zone, n: nat)
    requires Unique(cs, n) && forall i :: 0 <= i < |cs| ==> cs[i].id < n
    ensures forall i :: 0 <= i < |Sel(cs, z)| ==> Sel(cs, z)[i].id < n
  {
    SelKeys(cs, z, n);
    forall i | 0 <= i < |Sel(cs, z)|
      ensures Sel(cs, z)[i].id < n
    {
      assert Sel(cs, z)[i] in cs;
    }
  }

  lemma AnchorIds(cs: seq<Cell>, i: nat, n: nat)
    requires Walk(cs).At? && i < Walk(cs).links && forall k :: 0 <= k < |cs| ==> cs[k].id < n
    ensures Anchors(cs)[i].start < n && Anchors(cs)[i].end < n
  {
    hide Walk, Anchors;
    AtStart(cs, i);
    AtEnd(cs, i);
  }

  lemma PlainProgress(p: Para, q: Para, layout: Layout, parts: Parts, k: nat)
    requires Readable(p) && LayoutOf(Cells(p.kids)) == Some(layout)
    requires |parts.plain| == |parts.links| + 1 && |parts.links| == |layout.links| && k < |layout.plain|
    requires Progress(Cells(p.kids), q, parts, k, p.next) && PatchPlain(q, layout, k, parts.plain[k]).Some?
    ensures Progress(Cells(p.kids), PatchPlain(q, layout, k, parts.plain[k]).value, parts, k + 1, p.next)
  {
    hide Walk, Anchors, Unique, Sel, Cells, TextOf, InsertPlainRun, RewriteItems, Spots, Edited, Breaks, StartSpot, EndSpot;
    var cs0, cs, n, value := Cells(p.kids), Cells(q.kids), p.next, parts.plain[k];
    var links := |layout.links|;
    assert layout.plain[k] == Sel(cs0, Zone(k, false)) == Sel(cs, ZoneOf(links, k));
    OwnIds(cs0, Zone(k, false), n);
    if layout.plain[k] != [] {
      RewriteEdits(q, Zone(k, false), value, n);
    } else if links == 0 {
      NothingIsEmpty();
      Untouched(cs, Zone(k, false), value, n);
    } else {
      var before := k < links;
      var i := if before then k else k - 1;
      AnchorIds(cs0, i, n);
      InsertEdits(q, i, value, before, n);
    }
    EditProgress(cs0, q, PatchPlain(q, layout, k, value).value, parts, k, n);
  }

  lemma NothingIsEmpty()
    ensures TextOf([]) == ""
  {
  }

  lemma LinkProgress(p: Para, q: Para, layout: Layout, parts: Parts, i: nat)
    requires Readable(p) && LayoutOf(Cells(p.kids)) == Some(layout)
    requires |parts.plain| == |parts.links| + 1 && |parts.links| == |layout.links| && i < |layout.links|
    requires Progress(Cells(p.kids), q, parts, |layout.plain| + i, p.next) && PatchLink(q, layout.links[i], parts.links[i].1).Some?
    ensures Progress(Cells(p.kids), PatchLink(q, layout.links[i], parts.links[i].1).value, parts, |layout.plain| + i + 1, p.next)
  {
    hide Walk, Anchors, Unique, Sel, Cells, TextOf, RewriteItems, Spots, Edited, Breaks;
    var cs0, cs, n, value := Cells(p.kids), Cells(q.kids), p.next, parts.links[i].1;
    var links := |layout.links|;
    assert layout.links[i].items == Sel(cs0, Zone(i, true)) == Sel(cs, ZoneOf(links, links + 1 + i));
    OwnIds(cs0, Zone(i, true), n);
    RewriteEdits(q, Zone(i, true), value, n);
    EditProgress(cs0, q, PatchLink(q, layout.links[i], value).value, parts, links + 1 + i, n);
  }

  lemma {:induction false} StepsProgress(p: Para, layout: Layout, parts: Parts, k: nat)
    requires Readable(p) && LayoutOf(Cells(p.kids)) == Some(layout)
    requires |parts.plain| == |parts.links| + 1 && |parts.links| == |layout.links| && k <= |layout.plain| + |layout.links|
    requires PatchSteps(p, layout, parts, k).Some?
    ensures Progress(Cells(p.kids), PatchSteps(p, layout, parts, k).value, parts, k, p.next)
  {
    hide LayoutOf, Readable, Progress, PatchPlain, PatchLink, PatchSteps, Cells;
    LayoutLinks(Cells(p.kids));
    if k == 0 {
      NoProgress(p, parts);
      FirstStep(p, layout, parts);
    } else {
      LastStep(p, layout, parts, k);
      StepsProgress(p, layout, parts, k - 1);
      var q := PatchSteps(p, layout, parts, k - 1).value;
      if k <= |layout.plain| {
        PlainProgress(p, q, layout, parts, k - 1);
      } else {
        LinkProgress(p, q, layout, parts, k - 1 - |layout.plain|);
      }
    }
  }

  lemma FirstStep(p: Para, layout: Layout, parts: Parts)
    requires LayoutOk(layout) && |parts.plain| == |parts.links| + 1 && |parts.links| == |layout.links|
    ensures PatchSteps(p, layout, parts, 0) == Some(p)
  {
  }

  lemma LastStep(p: Para, layout: Layout, parts: Parts, k: nat)
    requires LayoutOk(layout) && |parts.plain| == |parts.links| + 1 && |parts.links| == |layout.links|
    requires 0 < k <= |layout.plain| + |layout.links| && PatchSteps(p, layout, parts, k).Some?
    ensures PatchSteps(p, layout, parts, k - 1).Some?
    ensures var q, n := PatchSteps(p, layout, parts, k - 1).value, |layout.plain|;
            PatchSteps(p, layout, parts, k) == if k <= n then PatchPlain(q, layout, k - 1, parts.plain[k - 1])
                                               else PatchLink(q, layout.links[k - 1 - n], parts.links[k - 1 - n].1)
  {
    hide PatchPlain, PatchLink;
  }

  lemma LayoutLinks(cs: seq<Cell>)
    requires LayoutOf(cs).Some?
    ensures Walk(cs).At? && Walk(cs).mode.Plain? && |LayoutOf(cs).value.links| == Walk(cs).links
  {
    hide Walk, Sel, Anchors;
  }

  lemma NoProgress(p: Para, parts: Parts)
    requires Readable(p) && |parts.plain| == |parts.links| + 1 && |parts.links| == Walk(Cells(p.kids)).links
    ensures Progress(Cells(p.kids), p, parts, 0, p.next)
  {
    hide Walk, Anchors, Unique, Sel, Cells, TextOf, Spots, Breaks, StartSpot, EndSpot;
  }

  /**
   Writing a text into a paragraph, if it succeeds: every stretch is renewed for its part of the text, and the field
   machine, the links and the breaks around them are as before.
   */
  lemma PatchWrites(p: Para, parts: Parts, text: string)
    requires Readable(p) && Parse(text) == Some(parts) && |parts.links| == Walk(Cells(p.kids)).links && Patch(p, text).Some?
    ensures var cs0, cs := Cells(p.kids), Cells(Patch(p, text).value.kids);
            SameLinks(cs0, cs) && forall j: nat :: j < 2 * |parts.links| + 1 ==> Written(cs0, cs, parts, j)
  {
    hide Walk, Anchors, Unique, Sel, Cells, TextOf, Parse, PatchSteps, Written, SameLinks;
    var layout := LayoutOf(Cells(p.kids)).value;
    StepsProgress(p, layout, parts, 2 * |parts.links| + 1);
  }

  /** Every link shows something, and so does a paragraph without links. */
  ghost predicate Filled(cs: seq<Cell>)
    requires Walk(cs).At?
  {
    && (forall i: nat :: i < Walk(cs).links ==> Sel(cs, Zone(i, true)) != [])
    && (Walk(cs).links == 0 ==> Sel(cs, Zone(0, false)) != [])
  }

  /** A filled paragraph takes any text of its shape. */
  lemma {:induction false} FilledSteps(p: Para, layout: Layout, parts: Parts, k: nat)
    requires LayoutOf(Cells(p.kids)) == Some(layout) && Walk(Cells(p.kids)).At? && Filled(Cells(p.kids))
    requires |parts.plain| == |parts.links| + 1 && |parts.links| == |layout.links| && k <= |layout.plain| + |layout.links|
    ensures PatchSteps(p, layout, parts, k).Some?
  {
    hide Walk, Anchors, Sel, Cells, TextOf, RewriteItems, InsertPlainRun;
    if k > 0 {
      FilledSteps(p, layout, parts, k - 1);
      var cs, n := Cells(p.kids), |layout.plain|;
      LayoutLinks(cs);
      if k <= n {
        assert layout.plain[k - 1] == Sel(cs, Zone(k - 1, false));
      } else {
        assert layout.links[k - 1 - n].items == Sel(cs, Zone(k - 1 - n, true));
      }
    }
  }
}
