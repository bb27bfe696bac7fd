/**
 Templates for which the round trip needs nothing but an ordinary character: text nodes are not empty, sit in
 runs outside AlternateContent, and no page or column break lies inside a link.
 */
module DocxRegular {
  import opened DocxLinks
  import opened DocxTree
  import opened DocxLayout
  import opened DocxPatch
  import opened DocxEdits
  import opened DocxRewrite
  import opened DocxDocument
  import opened DocxRoundTrip
  import opened DocxRendering

  /** No break inside a link. */
  ghost predicate BreaksOutside(cs: seq<Cell>) {
    forall i :: 0 <= i < |cs| && IsBreak(cs[i]) ==> Walk(cs[..i]).At? && Walk(cs[..i]).mode.Plain?
  }

  ghost predicate Regular(cs: seq<Cell>) {
    && (forall i :: 0 <= i < |cs| && IsInline(cs[i]) ==> cs[i].place.inRun && !cs[i].place.alternate && ItemText(cs[i]) != "")
    && BreaksOutside(cs)
  }

  /** Some plain stretch or display keeps a character that is not a tab, line break or special hyphen. */
  predicate KeepsOrdinary(parts: Parts) {
    || (exists i :: 0 <= i < |parts.plain| && HasOrdinary(parts.plain[i]))
    || (exists i :: 0 <= i < |parts.links| && HasOrdinary(parts.links[i].1))
  }

  /** Without breaks inside it, a link starts, shows its text and ends after the same number of breaks. */
  lemma {:induction false} LinkSpot(cs: seq<Cell>, i: nat)
    requires Started(cs, i) && BreaksOutside(cs)
    ensures Walk(cs).links == i ==> Breaks(cs) == StartSpot(cs, i)
    ensures forall t :: 0 <= t < |Spots(cs, Zone(i, true))| ==> Spots(cs, Zone(i, true))[t] == StartSpot(cs, i)
    ensures Walk(cs).links > i ==> EndSpot(cs, i) == StartSpot(cs, i)
  {
    hide Step, Closing, Key, IsInline, IsBreak, Walk, Sel, Breaks, Anchors, Spots, StartSpot, EndSpot;
    assert LinkStart(cs, i) < |cs|;
    var a, c := cs[..|cs| - 1], cs[|cs| - 1];
    assert cs == a + [c] && cs[..|a|] == a;
    Snoc(a, c, Zone(i, true));
    SpotsSnoc(a, c, Zone(i, true));
    LinkSpotsSnoc(a, c, i);
    StepCase(Walk(a), c);
    if Started(a, i) {
      assert forall k :: 0 <= k < |a| ==> a[k] == cs[k] && a[..k] == cs[..k];
      LinkSpot(a, i);
    } else {
      NotYet(a, Zone(i, true));
      OpeningStep(Walk(a), c);
      assert Spots(a, Zone(i, true)) == [];
    }
  }

  lemma RegularItems(cs: seq<Cell>, z: Zone, t: nat)
    requires Regular(cs) && t < |Sel(cs, z)|
    ensures Sel(cs, z)[t].place.inRun && !Sel(cs, z)[t].place.alternate && ItemText(Sel(cs, z)[t]) != ""
  {
    hide Walk, Sel, IsBreak, Spots, Breaks;
    var i := SelectedIsInline(cs, z, t);
  }

  /** New text of a stretch follows as many breaks as some text the template shows. */
  lemma SlotIsShown(cs: seq<Cell>, j: nat) returns (k: nat)
    requires Walk(cs).At? && Walk(cs).mode.Plain? && Regular(cs) && Filled(cs) && j < 2 * Walk(cs).links + 1
    ensures k < 2 * Walk(cs).links + 1 && Slot(cs, j) in SpotsShown(cs, k)
  {
    hide Walk, Sel, Spots, Breaks, StartSpot, EndSpot, Regular, ItemText;
    var links := Walk(cs).links;
    var z := ZoneOf(links, j);
    if Sel(cs, z) != [] {
      k := j;
      RegularItems(cs, z, 0);
    } else {
      assert j <= links && links > 0;
      var i := if j < links then j else links - 1;
      k := links + 1 + i;
      assert ZoneOf(links, k) == Zone(i, true);
      RegularItems(cs, Zone(i, true), 0);
      RegularLink(cs, i);
      assert Spots(cs, Zone(i, true))[0] == StartSpot(cs, i) == EndSpot(cs, i);
    }
  }

  lemma RegularLink(cs: seq<Cell>, i: nat)
    requires Walk(cs).At? && Regular(cs) && i < Walk(cs).links
    ensures Started(cs, i) && EndSpot(cs, i) == StartSpot(cs, i)
    ensures forall t :: 0 <= t < |Spots(cs, Zone(i, true))| ==> Spots(cs, Zone(i, true))[t] == StartSpot(cs, i)
  {
    hide Walk, Sel, Spots, StartSpot, EndSpot, BreaksOutside;
    LinkSpot(cs, i);
  }

  lemma RegularIsAligned(cs: seq<Cell>, parts: Parts)
    requires Shaped(cs, parts) && Regular(cs) && Filled(cs) && !HasInteriorLayoutBreak(cs)
    ensures Safe(cs, parts) && Clear(cs, parts) && Aligned(cs, parts)
  {
    hide Walk, Sel, Spots, Breaks, TextOf, Regular, HasInteriorLayoutBreak, Filled, ShownSpots, Slot, Ordinary, HasOrdinary;
    var links := |parts.links|;
    InteriorIsUnaligned(cs);
    forall j: nat | j < 2 * links + 1
      ensures SafeStretch(Sel(cs, ZoneOf(links, j)), ValueOf(parts, j)) && ClearStretch(Sel(cs, ZoneOf(links, j)), ValueOf(parts, j))
    {
      if Sel(cs, ZoneOf(links, j)) != [] {
        RegularItems(cs, ZoneOf(links, j), 0);
      }
    }
    forall j: nat, x | j < 2 * links + 1 && x in SpotsAfter(cs, parts, j)
      ensures exists k: nat :: k < 2 * links + 1 && x in SpotsShown(cs, k)
    {
      if x !in SpotsShown(cs, j) {
        var k := SlotIsShown(cs, j);
      }
    }
  }

  /** A text that keeps an ordinary character survives. */
  lemma OrdinarySurvives(cs: seq<Cell>, parts: Parts)
    requires Shaped(cs, parts) && KeepsOrdinary(parts)
    ensures Survives(cs, parts)
  {
    hide TextOf, Sel, HasOrdinary, HasTextItem, Walk;
    var links := |parts.links|;
    var j: nat;
    if i :| 0 <= i < |parts.plain| && HasOrdinary(parts.plain[i]) {
      j := i;
    } else {
      var i :| 0 <= i < links && HasOrdinary(parts.links[i].1);
      j := links + 1 + i;
    }
    var items := Sel(cs, ZoneOf(links, j));
    assert HasOrdinary(ValueOf(parts, j));
    if TextOf(items) == ValueOf(parts, j) {
      OrdinaryText(items);
    }
    assert KeepsText(items, ValueOf(parts, j));
  }

  /** Regular templates and texts with an ordinary character each: everything comes back. */
  lemma OrdinaryTextsRoundTrip(doc: seq<BodyPara>, rels: set<string>, rs: seq<Replacement>)
    requires Extract(doc, rels).Ok? && ValidReplacements(Extract(doc, rels).value, rs) && Parsed(doc, rels)
    requires forall i :: 0 <= i < |doc| && IsKept(doc, rels, i) ==> Regular(Cells(doc[i].para.kids))
    requires forall i :: 0 <= i < |rs| ==> Parse(rs[i].text).Some? && KeepsOrdinary(Parse(rs[i].text).value)
    ensures Render(doc, rels, rs).Ok? && |rs| == |Extract(doc, rels).value|
    ensures Extract(Render(doc, rels, rs).value, rels) == Ok(WithTexts(Extract(doc, rels).value, rs))
  {
    hide ExtractFirst, RenderFirst, Parsed, ParagraphBlock, Parse, KeepsOrdinary, ReadsBackAt, BlockId, Kind, CheckReplacement, Regular, IsKept;
    ExtractAfterRender(doc, rels, rs);
    forall i | 0 <= i < |doc| && IsKept(doc, rels, i)
      ensures ReadsBackAt(doc, rels, rs, i)
    {
      RegularReadsBack(doc, rels, rs, i);
    }
  }

  lemma RegularReadsBack(doc: seq<BodyPara>, rels: set<string>, rs: seq<Replacement>, i: nat)
    requires Extract(doc, rels).Ok? && ValidReplacements(Extract(doc, rels).value, rs) && Parsed(doc, rels)
    requires i < |doc| && IsKept(doc, rels, i) && Regular(Cells(doc[i].para.kids))
    requires forall k :: 0 <= k < |rs| ==> Parse(rs[k].text).Some? && KeepsOrdinary(Parse(rs[k].text).value)
    ensures ReadsBackAt(doc, rels, rs, i)
  {
    hide ExtractFirst, ParagraphBlock, Parse, KeepsOrdinary, BlockId, Kind, CheckReplacement, Regular, Safe, Clear, Aligned, Survives, Shaped, Cells;
    ExtractGrows(doc, rels, i, |doc|);
    ExtractGrows(doc, rels, i + 1, |doc|);
    KeptExtends(doc, rels, i + 1);
    var p, e := doc[i].para, ExtractFirst(doc, rels, i).value;
    var blocks, j := Extract(doc, rels).value, |e.blocks|;
    assert ExtractFirst(doc, rels, i + 1).value.blocks[j] == blocks[j];
    ValidIsGood(p, rels, e.number, blocks[j], rs[j]);
    KeptShape(p, rels, e.number, rs[j].text);
    var parts := Parse(rs[j].text).value;
    KeptIsFilled(p, rels, e.number);
    KeptIsUnbroken(p, rels, e.number);
    RegularIsAligned(Cells(p.kids), parts);
    OrdinarySurvives(Cells(p.kids), parts);
  }

  lemma KeptIsUnbroken(p: Para, rels: set<string>, number: nat)
    requires ParagraphBlock(p, rels, number).Kept?
    ensures !HasInteriorLayoutBreak(Cells(p.kids))
  {
    hide Cells, HasInteriorLayoutBreak, LayoutOf, ReadLinks, HasText;
  }
}
