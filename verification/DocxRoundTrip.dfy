/**
 Re-extracting a rendered document gives back exactly the replacement texts.
 */
module DocxRoundTrip {
  import opened DocxLinks
  import opened DocxTree
  import opened DocxLayout
  import opened DocxPatch
  import opened DocxEdits
  import opened DocxRewrite
  import opened DocxDocument

  // ----- when a paragraph reads back -----

  predicate HasOrdinary(s: string) {
    exists i :: 0 <= i < |s| && GlyphFor(s[i]).None?
  }

  /** A text node that is not empty. */
  predicate HasTextItem(items: seq<Cell>) {
    exists k :: 0 <= k < |items| && items[k].Found? && items[k].leaf.Text? && items[k].leaf.value != ""
  }

  /** Special characters written outside a run would be lost. */
  ghost predicate SafeStretch(items: seq<Cell>, value: string)
    requires AllInline(items)
  {
    TextOf(items) == value || SlotPlace(items).inRun || Ordinary(value)
  }

  /** Text written below AlternateContent would make the paragraph untouchable. */
  ghost predicate ClearStretch(items: seq<Cell>, value: string)
    requires AllInline(items)
  {
    TextOf(items) == value || !SlotPlace(items).alternate || !HasOrdinary(value)
  }

  /** A stretch shows a text node once `value` is written: an unchanged one keeps its own, a new one needs an ordinary character. */
  ghost predicate KeepsText(items: seq<Cell>, value: string)
    requires AllInline(items)
  {
    if TextOf(items) == value then HasTextItem(items) else HasOrdinary(value)
  }

  /** The numbers of breaks before the items of a stretch that show something. */
  function ShownSpots(items: seq<Cell>, spots: seq<nat>): set<nat>
    requires AllInline(items) && |spots| == |items|
  {
    set i | 0 <= i < |items| && ItemText(items[i]) != "" :: spots[i]
  }

  ghost predicate Shaped(cs: seq<Cell>, parts: Parts) {
    Walk(cs).At? && Walk(cs).mode.Plain? && |parts.links| == Walk(cs).links && |parts.plain| == |parts.links| + 1
  }

  /** The numbers of breaks before what stretch `j` shows once the parts are written. */
  ghost function SpotsAfter(cs: seq<Cell>, parts: Parts, j: nat): set<nat>
    requires Shaped(cs, parts) && j < 2 * |parts.links| + 1
  {
    var z := ZoneOf(|parts.links|, j);
    if TextOf(Sel(cs, z)) == ValueOf(parts, j) then ShownSpots(Sel(cs, z), Spots(cs, z))
    else if ValueOf(parts, j) == "" then {}
    else {Slot(cs, j)}
  }

  ghost predicate Safe(cs: seq<Cell>, parts: Parts)
    requires Shaped(cs, parts)
  {
    forall j: nat :: j < 2 * |parts.links| + 1 ==> SafeStretch(Sel(cs, ZoneOf(|parts.links|, j)), ValueOf(parts, j))
  }

  ghost predicate Clear(cs: seq<Cell>, parts: Parts)
    requires Shaped(cs, parts)
  {
    forall j: nat :: j < 2 * |parts.links| + 1 ==> ClearStretch(Sel(cs, ZoneOf(|parts.links|, j)), ValueOf(parts, j))
  }

  /** All text ends up between the same two page or column breaks. */
  ghost predicate Aligned(cs: seq<Cell>, parts: Parts)
    requires Shaped(cs, parts)
  {
    forall j: nat, k: nat, x, y ::
      j < 2 * |parts.links| + 1 && k < 2 * |parts.links| + 1 && x in SpotsAfter(cs, parts, j) && y in SpotsAfter(cs, parts, k) ==> x == y
  }

  /** Some stretch of the paragraph still shows a text node once the parts are written. */
  ghost predicate Survives(cs: seq<Cell>, parts: Parts)
    requires Shaped(cs, parts)
  {
    exists j: nat :: j < 2 * |parts.links| + 1 && KeepsText(Sel(cs, ZoneOf(|parts.links|, j)), ValueOf(parts, j))
  }

  // ----- cells and stretches -----

  /** Once the machine has left a link, one more link is counted. */
  lemma {:induction false} LinksGrow(cs: seq<Cell>, i: nat)
    requires Walk(cs).At? && i <= |cs|
    ensures Walk(cs[..i]).At? && Walk(cs[..i]).links <= Walk(cs).links
    ensures !Walk(cs[..i]).mode.Plain? && Walk(cs).mode.Plain? ==> Walk(cs[..i]).links < Walk(cs).links
  {
    hide Step;
    if i == |cs| {
      assert cs[..i] == cs;
    } else {
      var a, c := cs[..|cs| - 1], cs[|cs| - 1];
      StepCase(Walk(a), c);
      LinksGrow(a, i);
      assert a[..i] == cs[..i];
    }
  }

  /** An inline item is read in plain text, a field result or a link, never in a field code. */
  lemma InlineHasZone(cs: seq<Cell>, i: nat)
    requires i < |cs| && IsInline(cs[i]) && Walk(cs).At?
    ensures Walk(cs[..i]).At? && !Walk(cs[..i]).mode.Code?
  {
    hide Walk;
    LinksGrow(cs, i);
    LinksGrow(cs, i + 1);
    assert cs[..i + 1] == cs[..i] + [cs[i]];
    InlineNotInCode(cs[..i], cs[i]);
  }

  /** Every inline item is in a stretch, with the number of breaks before it. */
  lemma {:induction false} InlineIsSelected(cs: seq<Cell>, i: nat, z: Zone) returns (t: nat)
    requires i < |cs| && IsInline(cs[i]) && InZone(Walk(cs[..i]), z)
    ensures t < |Sel(cs, z)| && Sel(cs, z)[t] == cs[i] && Spots(cs, z)[t] == Breaks(cs[..i])
  {
    hide Walk, IsInline, InZone, Breaks;
    var a := cs[..|cs| - 1];
    if i < |cs| - 1 {
      assert a[..i] == cs[..i];
      t := InlineIsSelected(a, i, z);
    } else {
      assert cs[..i] == a;
      t := |Sel(a, z)|;
    }
  }

  lemma {:induction false} SelectedIsInline(cs: seq<Cell>, z: Zone, t: nat) returns (i: nat)
    requires t < |Sel(cs, z)|
    ensures i < |cs| && cs[i] == Sel(cs, z)[t] && IsInline(cs[i]) && Spots(cs, z)[t] == Breaks(cs[..i])
  {
    hide Walk, IsInline, InZone, Breaks;
    var a := cs[..|cs| - 1];
    if t < |Sel(a, z)| {
      i := SelectedIsInline(a, z, t);
      assert a[..i] == cs[..i];
    } else {
      i := |a|;
      assert cs[..i] == a;
    }
  }

  /** The stretch an inline item belongs to, by number. */
  lemma StretchOf(cs: seq<Cell>, i: nat) returns (j: nat, t: nat)
    requires Walk(cs).At? && Walk(cs).mode.Plain? && i < |cs| && IsInline(cs[i])
    ensures j < 2 * Walk(cs).links + 1
    ensures var z := ZoneOf(Walk(cs).links, j);
            t < |Sel(cs, z)| && Sel(cs, z)[t] == cs[i] && Spots(cs, z)[t] == Breaks(cs[..i])
  {
    hide Walk, Sel, Spots, IsInline, Breaks;
    InlineHasZone(cs, i);
    LinksGrow(cs, i);
    var s, links := Walk(cs[..i]), Walk(cs).links;
    var z := Zone(s.links, !s.mode.Plain?);
    t := InlineIsSelected(cs, i, z);
    j := if z.link then links + 1 + z.index else z.index;
    assert ZoneOf(links, j) == z;
  }

  /** A paragraph shows a text node exactly when one of its stretches does. */
  lemma TextIsInAStretch(cs: seq<Cell>)
    requires Walk(cs).At? && Walk(cs).mode.Plain?
    ensures HasText(cs) <==> exists j: nat :: j < 2 * Walk(cs).links + 1 && HasTextItem(Sel(cs, ZoneOf(Walk(cs).links, j)))
  {
    hide Walk, Sel, Breaks, Spots;
    var links := Walk(cs).links;
    if HasText(cs) {
      var i :| 0 <= i < |cs| && cs[i].Found? && cs[i].leaf.Text? && cs[i].leaf.value != "";
      var j, t := StretchOf(cs, i);
      assert HasTextItem(Sel(cs, ZoneOf(links, j)));
    }
    forall j: nat | j < 2 * links + 1 && HasTextItem(Sel(cs, ZoneOf(links, j)))
      ensures HasText(cs)
    {
      var items := Sel(cs, ZoneOf(links, j));
      var t :| 0 <= t < |items| && items[t].Found? && items[t].leaf.Text? && items[t].leaf.value != "";
      var i := SelectedIsInline(cs, ZoneOf(links, j), t);
    }
  }

  predicate HasAlternate(items: seq<Cell>) {
    exists k :: 0 <= k < |items| && items[k].Found? && items[k].leaf.Text? && items[k].place.alternate
  }

  /** Text below AlternateContent is in some stretch. */
  lemma AlternateIsInAStretch(cs: seq<Cell>)
    requires Walk(cs).At? && Walk(cs).mode.Plain?
    ensures HasOwnAlternateContent(cs) <==> exists j: nat :: j < 2 * Walk(cs).links + 1 && HasAlternate(Sel(cs, ZoneOf(Walk(cs).links, j)))
  {
    hide Walk, Sel, Breaks, Spots;
    var links := Walk(cs).links;
    if HasOwnAlternateContent(cs) {
      var i :| 0 <= i < |cs| && cs[i].Found? && cs[i].leaf.Text? && cs[i].place.alternate;
      var j, t := StretchOf(cs, i);
      assert HasAlternate(Sel(cs, ZoneOf(links, j)));
    }
    forall j: nat | j < 2 * links + 1 && HasAlternate(Sel(cs, ZoneOf(links, j)))
      ensures HasOwnAlternateContent(cs)
    {
      var items := Sel(cs, ZoneOf(links, j));
      var t :| 0 <= t < |items| && items[t].Found? && items[t].leaf.Text? && items[t].place.alternate;
      var i := SelectedIsInline(cs, ZoneOf(links, j), t);
    }
  }

  lemma {:induction false} BreaksGrow(cs: seq<Cell>, i: nat, j: nat)
    requires i < j <= |cs|
    ensures Breaks(cs[..i]) + (if IsBreak(cs[i]) then 1 else 0) <= Breaks(cs[..j])
  {
    assert cs[..j][..j - 1] == cs[..j - 1];
    if i < j - 1 {
      BreaksGrow(cs, i, j - 1);
    }
  }

  lemma {:induction false} BreakBetween(cs: seq<Cell>, i: nat, k: nat) returns (j: nat)
    requires i < k <= |cs| && Breaks(cs[..i]) != Breaks(cs[..k])
    ensures i <= j < k && IsBreak(cs[j])
  {
    assert cs[..k][..k - 1] == cs[..k - 1];
    if IsBreak(cs[k - 1]) {
      j := k - 1;
    } else {
      j := BreakBetween(cs, i, k - 1);
    }
  }

  /** A break lies between two pieces of text exactly when they follow different numbers of breaks. */
  lemma InteriorIs(cs: seq<Cell>)
    ensures HasInteriorLayoutBreak(cs) <==>
            exists i, k :: 0 <= i < k < |cs| && Shows(cs[i]) && Shows(cs[k]) && Breaks(cs[..i]) != Breaks(cs[..k])
  {
    hide IsInline, ItemText, Breaks;
    if HasInteriorLayoutBreak(cs) {
      var i, j, k :| 0 <= i < j < k < |cs| && Shows(cs[i]) && IsBreak(cs[j]) && Shows(cs[k]);
      BreaksGrow(cs, i, j);
      BreaksGrow(cs, j, k);
    }
    forall i, k | 0 <= i < k < |cs| && Shows(cs[i]) && Shows(cs[k]) && Breaks(cs[..i]) != Breaks(cs[..k])
      ensures HasInteriorLayoutBreak(cs)
    {
      var j := BreakBetween(cs, i, k);
      BreakShowsNothing(cs[i]);
      assert i != j;
    }
  }

  /** All stretches show their text after the same number of breaks. */
  ghost predicate SameSpot(cs: seq<Cell>)
    requires Walk(cs).At?
  {
    forall j: nat, k: nat, x, y ::
      j < 2 * Walk(cs).links + 1 && k < 2 * Walk(cs).links + 1 && x in SpotsShown(cs, j) && y in SpotsShown(cs, k) ==> x == y
  }

  ghost function SpotsShown(cs: seq<Cell>, j: nat): set<nat>
    requires Walk(cs).At?
  {
    ShownSpots(Sel(cs, ZoneOf(Walk(cs).links, j)), Spots(cs, ZoneOf(Walk(cs).links, j)))
  }

  lemma InteriorIsUnaligned(cs: seq<Cell>)
    requires Walk(cs).At? && Walk(cs).mode.Plain?
    ensures HasInteriorLayoutBreak(cs) <==> !SameSpot(cs)
  {
    hide Walk, Sel, Breaks, Spots, HasInteriorLayoutBreak, IsInline, ItemText;
    InteriorIs(cs);
    var links := Walk(cs).links;
    if HasInteriorLayoutBreak(cs) {
      var i, k :| 0 <= i < k < |cs| && Shows(cs[i]) && Shows(cs[k]) && Breaks(cs[..i]) != Breaks(cs[..k]);
      var j, t := StretchOf(cs, i);
      var l, u := StretchOf(cs, k);
      assert Breaks(cs[..i]) in SpotsShown(cs, j) && Breaks(cs[..k]) in SpotsShown(cs, l);
    }
    forall j: nat, k: nat, x, y | j < 2 * links + 1 && k < 2 * links + 1 && x in SpotsShown(cs, j) && y in SpotsShown(cs, k) && x != y
      ensures HasInteriorLayoutBreak(cs)
    {
      var z, w := ZoneOf(links, j), ZoneOf(links, k);
      var t :| 0 <= t < |Sel(cs, z)| && ItemText(Sel(cs, z)[t]) != "" && Spots(cs, z)[t] == x;
      var u :| 0 <= u < |Sel(cs, w)| && ItemText(Sel(cs, w)[u]) != "" && Spots(cs, w)[u] == y;
      var i := SelectedIsInline(cs, z, t);
      var m := SelectedIsInline(cs, w, u);
      assert Shows(cs[i]) && Shows(cs[m]);
    }
  }

  lemma {:induction false} NestedIs(cs: seq<Cell>)
    ensures HasNestedHyperlink(cs) <==> NestedLinks(cs) > 0
  {
    if cs != [] {
      var a, c := cs[..|cs| - 1], cs[|cs| - 1];
      NestedIs(a);
      if HasNestedHyperlink(a) {
        var i :| 0 <= i < |a| && a[i].Nested? && a[i].tag.Hyperlink?;
        assert cs[i].Nested? && cs[i].tag.Hyperlink?;
      }
      assert forall i :: 0 <= i < |a| ==> a[i] == cs[i];
    }
  }

  // ----- reading a paragraph back -----

  /** What the links of a paragraph read as, numbered from `number + 1`. */
  ghost predicate ReadsAs(layout: Layout, parts: Parts, number: nat)
    requires LayoutOk(layout) && |parts.plain| == |parts.links| + 1
  {
    && |parts.links| == |layout.links|
    && (forall i :: 0 <= i < |parts.plain| ==> parts.plain[i] == TextOf(layout.plain[i]))
    && (forall i :: 0 <= i < |parts.links| ==> parts.links[i] == (LinkId(number + 1 + i), TextOf(layout.links[i].items)))
  }

  /** The print of the first `k` stretches and links. */
  function PrintFirst(p: Parts, k: nat): string
    requires |p.plain| == |p.links| + 1 && k <= |p.links|
  {
    if k == 0 then "" else PrintFirst(p, k - 1) + p.plain[k - 1] + Token(p.links[k - 1])
  }

  lemma {:induction false} PrintFromFirst(p: Parts, k: nat)
    requires |p.plain| == |p.links| + 1 && k <= |p.links|
    ensures Print(p) == PrintFirst(p, k) + Print(Parts(p.plain[k..], p.links[k..]))
  {
    hide Token;
    if k == 0 {
      assert p.plain[0..] == p.plain && p.links[0..] == p.links;
    } else {
      PrintFromFirst(p, k - 1);
      var rest := Parts(p.plain[k - 1..], p.links[k - 1..]);
      assert rest.plain[1..] == p.plain[k..] && rest.links[1..] == p.links[k..];
    }
  }

  lemma PrintWhole(p: Parts)
    requires |p.plain| == |p.links| + 1
    ensures Print(p) == PrintFirst(p, |p.links|) + p.plain[|p.links|]
  {
    PrintFromFirst(p, |p.links|);
  }

  ghost predicate GoodTags(layout: Layout, rels: set<string>) {
    forall i :: 0 <= i < |layout.links| ==> !BrokenRelationship(layout.links[i].anchor.tag, rels)
  }

  /** Clean parts with displays are read without an error. */
  lemma {:induction false} ReadsFirst(layout: Layout, parts: Parts, rels: set<string>, number: nat, k: nat)
    requires LayoutOk(layout) && |parts.plain| == |parts.links| + 1 && ReadsAs(layout, parts, number)
    requires k <= |layout.links| && GoodTags(layout, rels)
    requires forall i :: 0 <= i < |parts.plain| ==> Free(parts.plain[i])
    requires forall i :: 0 <= i < |parts.links| ==> Free(parts.links[i].1) && parts.links[i].1 != ""
    ensures ReadLinks(layout, rels, number, k) == Reading(PrintFirst(parts, k), number + k)
  {
    hide TextOf, Free, Reserved, BrokenRelationship, Token, LinkId;
    if k > 0 {
      ReadsFirst(layout, parts, rels, number, k - 1);
    }
  }

  /** Conversely, links read without an error have clean, non-empty displays and intact relationships. */
  lemma {:induction false} ReadLinksSay(layout: Layout, rels: set<string>, number: nat, k: nat, i: nat)
    requires LayoutOk(layout) && i < k <= |layout.links| && ReadLinks(layout, rels, number, k).Reading?
    ensures Free(TextOf(layout.plain[i])) && Free(TextOf(layout.links[i].items)) && TextOf(layout.links[i].items) != ""
    ensures !BrokenRelationship(layout.links[i].anchor.tag, rels)
  {
    hide TextOf, Free, BrokenRelationship, Token, LinkId;
    if i < k - 1 {
      ReadLinksSay(layout, rels, number, k - 1, i);
    }
  }

  ghost function PartsOf(layout: Layout, number: nat): (p: Parts)
    requires LayoutOk(layout)
    ensures |p.plain| == |p.links| + 1 && ReadsAs(layout, p, number)
  {
    Parts(seq(|layout.plain|, i requires 0 <= i < |layout.plain| => TextOf(layout.plain[i])),
          seq(|layout.links|, i requires 0 <= i < |layout.links| => (LinkId(number + 1 + i), TextOf(layout.links[i].items))))
  }

  /** What a kept block says about its paragraph. */
  lemma KeptSays(p: Para, rels: set<string>, number: nat)
    requires ParagraphBlock(p, rels, number).Kept?
    ensures var layout := LayoutOf(Cells(p.kids));
            && layout.Some? && LayoutOk(layout.value) && GoodTags(layout.value, rels)
            && (forall i :: 0 <= i < |layout.value.links| ==> TextOf(layout.value.links[i].items) != "")
    ensures var layout := LayoutOf(Cells(p.kids)).value;
            var parts := PartsOf(layout, number);
            && (forall i :: 0 <= i < |parts.plain| ==> Free(parts.plain[i]))
            && (forall i :: 0 <= i < |parts.links| ==> Free(parts.links[i].1))
            && ParagraphBlock(p, rels, number) == Kept(Print(parts), number + |layout.links|)
  {
    hide LayoutOf, Cells, TextOf, Free, BrokenRelationship, HasOwnAlternateContent, HasInteriorLayoutBreak, HasNestedHyperlink, HasText, Print, PrintFirst, ReadLinks;
    var layout := LayoutOf(Cells(p.kids)).value;
    var n := |layout.links|;
    forall i | 0 <= i < n
      ensures Free(TextOf(layout.plain[i])) && Free(TextOf(layout.links[i].items)) && TextOf(layout.links[i].items) != ""
      ensures !BrokenRelationship(layout.links[i].anchor.tag, rels)
    {
      ReadLinksSay(layout, rels, number, n, i);
    }
    var parts := PartsOf(layout, number);
    ReadsFirst(layout, parts, rels, number, n);
    PrintWhole(parts);
  }

  // ----- one paragraph, written and read back -----

  lemma {:induction false} OrdinaryText(items: seq<Cell>)
    requires AllInline(items) && HasOrdinary(TextOf(items))
    ensures HasTextItem(items)
  {
    var c, rest := items[0], items[1..];
    var i :| 0 <= i < |TextOf(items)| && GlyphFor(TextOf(items)[i]).None?;
    if i < |ItemText(c)| {
      assert TextOf(items)[i] == ItemText(c)[i];
      assert c.leaf.Text?;
    } else {
      assert TextOf(items)[i] == TextOf(rest)[i - |ItemText(c)|];
      OrdinaryText(rest);
      var k :| 0 <= k < |rest| && rest[k].Found? && rest[k].leaf.Text? && rest[k].leaf.value != "";
      assert items[k + 1] == rest[k];
    }
  }

  /** The first character of an item is read where the items before it end. */
  lemma {:induction false} ItemIsRead(items: seq<Cell>, k: nat) returns (i: nat)
    requires AllInline(items) && k < |items| && ItemText(items[k]) != ""
    ensures i < |TextOf(items)| && TextOf(items)[i] == ItemText(items[k])[0]
  {
    hide ItemText, IsInline;
    if k == 0 {
      i := 0;
    } else {
      var n := ItemIsRead(items[1..], k - 1);
      i := |ItemText(items[0])| + n;
    }
  }

  /** In new content, a text node is shown exactly for an ordinary character. */
  lemma CrispText(items: seq<Cell>)
    requires AllInline(items) && Crisp(items)
    ensures HasTextItem(items) <==> HasOrdinary(TextOf(items))
  {
    hide TextOf;
    if HasOrdinary(TextOf(items)) {
      OrdinaryText(items);
    }
    if HasTextItem(items) {
      var k :| 0 <= k < |items| && items[k].Found? && items[k].leaf.Text? && items[k].leaf.value != "";
      var i := ItemIsRead(items, k);
      assert Ordinary(items[k].leaf.value);
    }
  }

  lemma {:induction false} ReadsSomething(items: seq<Cell>)
    requires AllInline(items) && forall i :: 0 <= i < |items| ==> ItemText(items[i]) != ""
    ensures TextOf(items) == "" <==> items == []
  {
    hide ItemText, IsInline;
  }

  lemma SafeIs(items: seq<Cell>, value: string)
    requires AllInline(items)
    ensures SafeStretch(items, value) <==> TextOf(items) == value || Seen(value, SlotPlace(items).inRun) == value
  {
    hide TextOf;
    PlainOfShorter(value);
  }

  /** What a written stretch shows. */
  lemma StretchAfter(cs0: seq<Cell>, cs: seq<Cell>, parts: Parts, j: nat)
    requires Shaped(cs0, parts) && j < 2 * |parts.links| + 1 && Written(cs0, cs, parts, j)
    ensures var z, value := ZoneOf(|parts.links|, j), ValueOf(parts, j);
            && (TextOf(Sel(cs, z)) == value <==> SafeStretch(Sel(cs0, z), value))
            && (SafeStretch(Sel(cs0, z), value) ==>
                  && (HasTextItem(Sel(cs, z)) <==> KeepsText(Sel(cs0, z), value))
                  && ShownSpots(Sel(cs, z), Spots(cs, z)) == SpotsAfter(cs0, parts, j)
                  && (!HasAlternate(Sel(cs0, z)) ==> (HasAlternate(Sel(cs, z)) <==> !ClearStretch(Sel(cs0, z), value))))
  {
    hide TextOf, Sel, Spots, HasOrdinary, Crisp, Slot, Walk, ItemText, IsInline;
    var z, value := ZoneOf(|parts.links|, j), ValueOf(parts, j);
    var items, items' := Sel(cs0, z), Sel(cs, z);
    SafeIs(items, value);
    if TextOf(items) != value && SafeStretch(items, value) {
      CrispText(items');
      ReadsSomething(items');
      if items' != [] {
        assert Spots(cs, z)[0] in ShownSpots(items', Spots(cs, z));
      }
      assert ShownSpots(items', Spots(cs, z)) == SpotsAfter(cs0, parts, j);
      AlternateAfter(items', SlotPlace(items));
    }
  }

  lemma AlternateAfter(items: seq<Cell>, place: Place)
    requires AllInline(items) && forall i :: 0 <= i < |items| ==> items[i].place == place && ItemText(items[i]) != ""
    ensures HasAlternate(items) <==> place.alternate && HasTextItem(items)
  {
    if place.alternate && HasTextItem(items) {
      var k :| 0 <= k < |items| && items[k].Found? && items[k].leaf.Text? && items[k].leaf.value != "";
      assert items[k].place.alternate;
    }
    if HasAlternate(items) {
      var k :| 0 <= k < |items| && items[k].Found? && items[k].leaf.Text? && items[k].place.alternate;
      assert ItemText(items[k]) == items[k].leaf.value;
    }
  }

  /** The checks of the re-read paragraph, in terms of the template and the written parts. */
  lemma ChecksAfter(cs0: seq<Cell>, cs: seq<Cell>, parts: Parts)
    requires Shaped(cs0, parts) && SameLinks(cs0, cs) && Safe(cs0, parts) && !HasOwnAlternateContent(cs0)
    requires forall j: nat :: j < 2 * |parts.links| + 1 ==> Written(cs0, cs, parts, j)
    ensures HasText(cs) <==> Survives(cs0, parts)
    ensures HasOwnAlternateContent(cs) <==> !Clear(cs0, parts)
    ensures HasInteriorLayoutBreak(cs) <==> !Aligned(cs0, parts)
  {
    hide TextOf, Sel, Spots, HasText, HasTextItem, KeepsText, SafeStretch, ClearStretch, HasAlternate, HasOwnAlternateContent, HasInteriorLayoutBreak,
         Walk, Written, ShownSpots, SpotsAfter, Anchors, Breaks;
    var links := |parts.links|;
    TextIsInAStretch(cs);
    AlternateIsInAStretch(cs);
    AlternateIsInAStretch(cs0);
    InteriorIsUnaligned(cs);
    forall j: nat | j < 2 * links + 1
      ensures HasTextItem(Sel(cs, ZoneOf(links, j))) <==> KeepsText(Sel(cs0, ZoneOf(links, j)), ValueOf(parts, j))
      ensures HasAlternate(Sel(cs, ZoneOf(links, j))) <==> !ClearStretch(Sel(cs0, ZoneOf(links, j)), ValueOf(parts, j))
      ensures SpotsShown(cs, j) == SpotsAfter(cs0, parts, j)
    {
      StretchAfter(cs0, cs, parts, j);
    }
  }

  /** A kept paragraph can be written. */
  lemma KeptIsFilled(p: Para, rels: set<string>, number: nat)
    requires ParagraphBlock(p, rels, number).Kept?
    ensures Walk(Cells(p.kids)).At? && Walk(Cells(p.kids)).mode.Plain? && Filled(Cells(p.kids))
  {
    hide Walk, Sel, Cells, HasInteriorLayoutBreak, Anchors;
    var cs := Cells(p.kids);
    KeptSays(p, rels, number);
    LayoutLinks(cs);
    var layout := LayoutOf(cs).value;
    forall i: nat | i < Walk(cs).links
      ensures Sel(cs, Zone(i, true)) != []
    {
      assert layout.links[i].items == Sel(cs, Zone(i, true));
      assert TextOf(layout.links[i].items) != "";
    }
    if Walk(cs).links == 0 {
      var i :| 0 <= i < |cs| && cs[i].Found? && cs[i].leaf.Text? && cs[i].leaf.value != "";
      var j, t := StretchOf(cs, i);
      assert ZoneOf(0, j) == Zone(0, false);
    }
  }

  lemma KeptPatches(p: Para, rels: set<string>, number: nat, text: string)
    requires ParagraphBlock(p, rels, number).Kept? && GoodText(text, number, ParagraphBlock(p, rels, number).number - number)
    ensures Patch(p, text).Some?
  {
    hide Walk, Sel, Cells, Anchors, Parse, PatchSteps, ParagraphBlock;
    KeptSays(p, rels, number);
    KeptIsFilled(p, rels, number);
    var layout := LayoutOf(Cells(p.kids)).value;
    FilledSteps(p, layout, Parse(text).value, |layout.plain| + |layout.links|);
  }

  lemma LayoutAfter(cs0: seq<Cell>, cs: seq<Cell>, parts: Parts, number: nat, rels: set<string>)
    requires LayoutOf(cs0).Some? && GoodTags(LayoutOf(cs0).value, rels)
    requires Walk(cs) == Walk(cs0) && Anchors(cs) == Anchors(cs0)
    requires |parts.plain| == |parts.links| + 1 && |parts.links| == Walk(cs0).links
    requires Holds(cs, parts)
    requires forall i :: 0 <= i < |parts.links| ==> parts.links[i].0 == LinkId(number + 1 + i)
    ensures var layout := LayoutOf(cs);
            layout.Some? && LayoutOk(layout.value) && ReadsAs(layout.value, parts, number) && GoodTags(layout.value, rels)
  {
    hide Walk, Sel, Anchors, TextOf, BrokenRelationship, LinkId;
    var before, after := LayoutOf(cs0).value, LayoutOf(cs).value;
    forall i | 0 <= i < |after.links|
      ensures !BrokenRelationship(after.links[i].anchor.tag, rels)
    {
      assert after.links[i].anchor == before.links[i].anchor;
    }
  }

  /** A text with the paragraph's links, in order and each with a display. */
  ghost predicate GoodText(text: string, number: nat, links: int) {
    var parts := Parse(text);
    && parts.Some? && |parts.value.links| == links
    && (forall i :: 0 <= i < links ==> parts.value.links[i].0 == LinkId(number + 1 + i) && parts.value.links[i].1 != "")
  }

  /** The stretches hold the parts. */
  ghost predicate Holds(cs: seq<Cell>, parts: Parts) {
    && (forall i :: 0 <= i < |parts.plain| ==> TextOf(Sel(cs, Zone(i, false))) == parts.plain[i])
    && (forall i :: 0 <= i < |parts.links| ==> TextOf(Sel(cs, Zone(i, true))) == parts.links[i].1)
  }

  ghost predicate HoldsAt(cs: seq<Cell>, parts: Parts, j: nat)
    requires |parts.plain| == |parts.links| + 1 && j < 2 * |parts.links| + 1
  {
    TextOf(Sel(cs, ZoneOf(|parts.links|, j))) == ValueOf(parts, j)
  }

  lemma HoldsEverywhere(cs: seq<Cell>, parts: Parts)
    requires |parts.plain| == |parts.links| + 1
    ensures Holds(cs, parts) <==> forall j: nat :: j < 2 * |parts.links| + 1 ==> HoldsAt(cs, parts, j)
  {
    hide TextOf, Sel;
    var links := |parts.links|;
    if forall j: nat :: j < 2 * links + 1 ==> HoldsAt(cs, parts, j) {
      forall i: nat | i < |parts.plain|
        ensures TextOf(Sel(cs, Zone(i, false))) == parts.plain[i]
      {
        assert HoldsAt(cs, parts, i);
      }
      forall i: nat | i < links
        ensures TextOf(Sel(cs, Zone(i, true))) == parts.links[i].1
      {
        assert HoldsAt(cs, parts, links + 1 + i);
      }
    }
  }

  /** The stretches of the re-read paragraph hold the parts exactly if the parts are safe. */
  lemma TextsAfter(cs0: seq<Cell>, cs: seq<Cell>, parts: Parts)
    requires Shaped(cs0, parts)
    requires forall j: nat :: j < 2 * |parts.links| + 1 ==> Written(cs0, cs, parts, j)
    ensures Safe(cs0, parts) <==> Holds(cs, parts)
  {
    hide TextOf, Sel, Walk, Written, SafeStretch, SpotsAfter, Holds;
    HoldsEverywhere(cs, parts);
    forall j: nat | j < 2 * |parts.links| + 1
      ensures HoldsAt(cs, parts, j) <==> SafeStretch(Sel(cs0, ZoneOf(|parts.links|, j)), ValueOf(parts, j))
    {
      StretchAfter(cs0, cs, parts, j);
    }
  }

  /** Everything that must hold for a written paragraph to read back. */
  ghost predicate ReadsBack(cs: seq<Cell>, parts: Parts)
    requires Shaped(cs, parts)
  {
    Safe(cs, parts) && Clear(cs, parts) && Aligned(cs, parts) && Survives(cs, parts)
  }

  lemma KeptShape(p: Para, rels: set<string>, number: nat, text: string)
    requires ParagraphBlock(p, rels, number).Kept? && GoodText(text, number, ParagraphBlock(p, rels, number).number - number)
    ensures Shaped(Cells(p.kids), Parse(text).value)
  {
    hide Walk, Sel, Anchors, Cells, Parse;
    KeptSays(p, rels, number);
    LayoutLinks(Cells(p.kids));
  }

  /**
   Write a text into a kept paragraph and read the paragraph again. If no special character is written outside a
   run, the same text comes back, or the paragraph is dropped: for text below AlternateContent, for text on both
   sides of a break, or because no text node is left. Otherwise the text does not come back.
   */
  lemma ParagraphRoundTrip(p: Para, rels: set<string>, number: nat, text: string)
    requires ParagraphBlock(p, rels, number).Kept? && ParagraphBlock(p, rels, number).number < 1_000_000 && Identified(p)
    requires GoodText(text, number, ParagraphBlock(p, rels, number).number - number)
    ensures Patch(p, text).Some? && Shaped(Cells(p.kids), Parse(text).value)
    ensures var cs, parts, n := Cells(p.kids), Parse(text).value, ParagraphBlock(p, rels, number).number;
            var now := ParagraphBlock(Patch(p, text).value, rels, number);
            && (Safe(cs, parts) ==>
                  now == if !Clear(cs, parts) || !Aligned(cs, parts) then Dropped(number)
                         else if Survives(cs, parts) then Kept(text, n) else Dropped(n))
            && (!Safe(cs, parts) ==> !now.Kept? || now.text != text)
  {
    hide Walk, Sel, Anchors, TextOf, Unique, Cells, Parse, Print, PrintFirst, Free, LinkId, ReadLinks, Patch, Written, Survives, Safe, Clear, Aligned,
         HasOwnAlternateContent, HasInteriorLayoutBreak, HasNestedHyperlink, HasText, Filled, IsLinkId, Breaks, StartSpot, EndSpot;
    var cs0 := Cells(p.kids);
    KeptSays(p, rels, number);
    KeptShape(p, rels, number, text);
    KeptIsFilled(p, rels, number);
    KeptPatches(p, rels, number, text);
    var parts := Parse(text).value;
    PatchWrites(p, parts, text);
    var cs := Cells(Patch(p, text).value.kids);
    TextsAfter(cs0, cs, parts);
    NestedIs(cs0);
    NestedIs(cs);
    if Safe(cs0, parts) {
      LayoutAfter(cs0, cs, parts, number, rels);
      ChecksAfter(cs0, cs, parts);
      PrintOfParse(text);
      var layout := LayoutOf(cs).value;
      ReadsFirst(layout, parts, rels, number, |layout.links|);
      PrintWhole(parts);
    } else if ParagraphBlock(Patch(p, text).value, rels, number).Kept? {
      OtherText(Patch(p, text).value, rels, number, parts, text);
    }
  }

  /** A kept paragraph whose stretches hold other texts than the parts does not read as the print of the parts. */
  lemma OtherText(q: Para, rels: set<string>, number: nat, parts: Parts, text: string)
    requires ParagraphBlock(q, rels, number).Kept? && number + Walk(Cells(q.kids)).links < 1_000_000
    requires Parse(text) == Some(parts) && |parts.plain| == |parts.links| + 1 && |parts.links| == Walk(Cells(q.kids)).links
    requires !Holds(Cells(q.kids), parts)
    ensures ParagraphBlock(q, rels, number).text != text
  {
    hide Walk, Sel, Anchors, TextOf, Cells, Parse, Print, Free, LinkId, ParagraphBlock;
    KeptSays(q, rels, number);
    var layout := LayoutOf(Cells(q.kids)).value;
    var own := PartsOf(layout, number);
    LayoutLinks(Cells(q.kids));
    forall i | 0 <= i < |own.links|
      ensures IsLinkId(own.links[i].0)
    {
      LinkIdShape(number + 1 + i);
    }
    ParseOfPrint(own);
    assert own != parts;
  }
}
