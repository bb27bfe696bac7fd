/**
 Two laws of extracted block maps: rendering them unchanged leaves the tree alone, and the map stored at
 upload reloads exactly when no dropped paragraph has used up a link number before a later link.
 */
module DocxStored {
  import opened DocxLinks
  import opened DocxTree
  import opened DocxLayout
  import opened DocxPatch
  import opened DocxEdits
  import opened DocxRewrite
  import opened DocxDocument
  import opened DocxRoundTrip
  import opened DocxRendering

  // ----- rendering the extracted texts -----

  lemma {:induction false} StepsDoNothing(p: Para, layout: Layout, parts: Parts, number: nat, k: nat)
    requires LayoutOk(layout) && |parts.plain| == |parts.links| + 1 && ReadsAs(layout, parts, number)
    requires k <= |layout.plain| + |layout.links|
    requires forall i :: 0 <= i < |parts.links| ==> parts.links[i].1 != ""
    ensures PatchSteps(p, layout, parts, k) == Some(p)
  {
    hide SubstAll, InlineElements, LocateLink, LocateField, LinkId;
    if k > 0 {
      StepsDoNothing(p, layout, parts, number, k - 1);
      if k > |layout.plain| {
        assert TextOf(layout.links[k - 1 - |layout.plain|].items) != "";
      }
    }
  }

  /** A kept block's text parses to exactly the stretches of its paragraph. */
  lemma KeptParses(p: Para, rels: set<string>, number: nat)
    requires ParagraphBlock(p, rels, number).Kept? && ParagraphBlock(p, rels, number).number < 1_000_000
    ensures var layout := LayoutOf(Cells(p.kids));
            && layout.Some? && LayoutOk(layout.value)
            && Parse(ParagraphBlock(p, rels, number).text) == Some(PartsOf(layout.value, number))
            && ParagraphBlock(p, rels, number).number == number + |layout.value.links|
            && (forall i :: 0 <= i < |layout.value.links| ==> TextOf(layout.value.links[i].items) != "")
  {
    hide Parse, ParagraphBlock, Cells, LayoutOf, Print, Free, TextOf, IsDigits, LinkId, GoodTags;
    KeptSays(p, rels, number);
    var parts := PartsOf(LayoutOf(Cells(p.kids)).value, number);
    forall i | 0 <= i < |parts.links|
      ensures IsLinkId(parts.links[i].0)
    {
      LinkIdShape(number + 1 + i);
    }
    ParseOfPrint(parts);
  }

  /** Writing a paragraph's own block text changes nothing at all. */
  lemma PatchUnchanged(p: Para, rels: set<string>, number: nat)
    requires ParagraphBlock(p, rels, number).Kept? && ParagraphBlock(p, rels, number).number < 1_000_000
    ensures Patch(p, ParagraphBlock(p, rels, number).text) == Some(p)
  {
    hide Parse, ParagraphBlock, Cells, LayoutOf, TextOf, PatchSteps, LinkId;
    KeptParses(p, rels, number);
    var layout := LayoutOf(Cells(p.kids)).value;
    StepsDoNothing(p, layout, PartsOf(layout, number), number, |layout.plain| + |layout.links|);
  }

  function Unchanged(blocks: seq<Block>): seq<Replacement> {
    seq(|blocks|, i requires 0 <= i < |blocks| => Replacement(blocks[i].id, blocks[i].text))
  }

  predicate LegalTexts(blocks: seq<Block>) {
    forall i, j :: 0 <= i < |blocks| && 0 <= j < |blocks[i].text| ==> XmlLegal(blocks[i].text[j])
  }

  /** The block that paragraph `k` became, and the numbers before it. */
  lemma BlockAt(doc: seq<BodyPara>, rels: set<string>, k: nat)
    requires 0 < k <= |doc| && ExtractFirst(doc, rels, |doc|).Ok?
    ensures ExtractFirst(doc, rels, k - 1).Ok? && ExtractFirst(doc, rels, k).Ok?
    ensures var e, end := ExtractFirst(doc, rels, k - 1).value, ExtractFirst(doc, rels, |doc|).value;
            var block := ParagraphBlock(doc[k - 1].para, rels, e.number);
            && !block.Failed? && block.number <= end.number
            && (block.Dropped? ==> ExtractFirst(doc, rels, k) == Ok(Extraction(e.blocks, block.number)))
            && (block.Kept? ==>
                  && |e.blocks| < |end.blocks| && |e.blocks| < MAX_DOCX_BLOCKS
                  && end.blocks[|e.blocks|] == Block(BlockId(|e.blocks| + 1), Kind(doc[k - 1].inCell), block.text)
                  && ExtractFirst(doc, rels, k) == Ok(Extraction(e.blocks + [end.blocks[|e.blocks|]], block.number)))
  {
    hide ParagraphBlock, BlockId, Kind;
    ExtractGrows(doc, rels, k, |doc|);
    ExtractGrows(doc, rels, k - 1, |doc|);
  }

  lemma {:induction false} RendersPrefix(doc: seq<BodyPara>, rels: set<string>, k: nat)
    requires k <= |doc| && Extract(doc, rels).Ok? && ExtractFirst(doc, rels, |doc|).value.number < 1_000_000
    ensures RenderFirst(doc, rels, Unchanged(Extract(doc, rels).value), k) == Ok(doc[..k])
  {
    hide ParagraphBlock, Patch, BlockId, Kind, ExtractFirst;
    if k > 0 {
      RendersPrefix(doc, rels, k - 1);
      BlockAt(doc, rels, k);
      var e, blocks := ExtractFirst(doc, rels, k - 1).value, Extract(doc, rels).value;
      assert doc[..k] == doc[..k - 1] + [doc[k - 1]];
      RendersOne(doc, rels, blocks, e, k);
    }
  }

  lemma RendersOne(doc: seq<BodyPara>, rels: set<string>, blocks: seq<Block>, e: Extraction, k: nat)
    requires 0 < k <= |doc| && ExtractFirst(doc, rels, k - 1) == Ok(e)
    requires RenderFirst(doc, rels, Unchanged(blocks), k - 1) == Ok(doc[..k - 1])
    requires var block := ParagraphBlock(doc[k - 1].para, rels, e.number);
             block.Kept? ==> |e.blocks| < |blocks| && blocks[|e.blocks|].text == block.text && block.number < 1_000_000
    ensures RenderFirst(doc, rels, Unchanged(blocks), k) == Ok(doc[..k - 1] + [doc[k - 1]])
  {
    hide ParagraphBlock, Patch, ExtractFirst;
    if ParagraphBlock(doc[k - 1].para, rels, e.number).Kept? {
      PatchUnchanged(doc[k - 1].para, rels, e.number);
    }
  }

  lemma BlockIdShape(n: nat)
    requires n < 1_000_000
    ensures IsBlockId(BlockId(n))
  {
    assert BlockId(n)[1..] == Padded(n);
  }

  lemma {:induction false} UnchangedIsValid(doc: seq<BodyPara>, rels: set<string>, k: nat)
    requires k <= |doc| && Extract(doc, rels).Ok? && ExtractFirst(doc, rels, |doc|).value.number < 1_000_000
    requires LegalTexts(Extract(doc, rels).value)
    ensures ExtractFirst(doc, rels, k).Ok?
    ensures var blocks := Extract(doc, rels).value;
            var n := |ExtractFirst(doc, rels, k).value.blocks|;
            n <= |blocks| && forall i :: 0 <= i < n ==> CheckReplacement(blocks[i], Unchanged(blocks)[i]) == ""
  {
    hide ParagraphBlock, BlockId, Kind, CheckReplacement, ExtractFirst, XmlLegal;
    ExtractGrows(doc, rels, k, |doc|);
    if k > 0 {
      UnchangedIsValid(doc, rels, k - 1);
      BlockAt(doc, rels, k);
      var e := ExtractFirst(doc, rels, k - 1).value;
      var block := ParagraphBlock(doc[k - 1].para, rels, e.number);
      if block.Kept? {
        OwnTextIsValid(doc[k - 1].para, rels, e.number, Extract(doc, rels).value[|e.blocks|], |e.blocks| + 1);
      }
    } else {
      NothingExtracted(doc, rels);
    }
  }

  lemma NothingExtracted(doc: seq<BodyPara>, rels: set<string>)
    ensures ExtractFirst(doc, rels, 0) == Ok(Extraction([], 0))
  {
  }

  lemma OwnTextIsValid(p: Para, rels: set<string>, number: nat, block: Block, n: nat)
    requires ParagraphBlock(p, rels, number).Kept? && ParagraphBlock(p, rels, number).number < 1_000_000
    requires block.text == ParagraphBlock(p, rels, number).text && n <= MAX_DOCX_BLOCKS && block.id == BlockId(n)
    requires forall j :: 0 <= j < |block.text| ==> XmlLegal(block.text[j])
    ensures CheckReplacement(block, Replacement(block.id, block.text)) == ""
  {
    hide Parse, ParagraphBlock, Cells, LayoutOf, TextOf, XmlLegal, LinkId, IsDigits;
    KeptParses(p, rels, number);
    BlockIdShape(n);
    var links := PartsOf(LayoutOf(Cells(p.kids)).value, number).links;
    forall i, j | 0 <= i < j < |LinkIds(links)|
      ensures LinkIds(links)[i] != LinkIds(links)[j]
    {
      if LinkId(number + 1 + i) == LinkId(number + 1 + j) {
        LinkIdInjective(number + 1 + i, number + 1 + j);
      }
    }
  }

  /** Rendering the extracted texts themselves leaves the whole document as it was. */
  lemma RenderUnchanged(doc: seq<BodyPara>, rels: set<string>)
    requires Extract(doc, rels).Ok? && ExtractFirst(doc, rels, |doc|).value.number < 1_000_000
    requires LegalTexts(Extract(doc, rels).value)
    ensures Render(doc, rels, Unchanged(Extract(doc, rels).value)) == Ok(doc)
  {
    hide ExtractFirst, RenderFirst, CheckReplacement, LegalTexts;
    UnchangedIsValid(doc, rels, |doc|);
    RendersPrefix(doc, rels, |doc|);
    assert doc[..|doc|] == doc;
  }

  // ----- reloading a stored block map -----

  /** The link number expected after the first `k` stored blocks; None is the "block map is invalid" error. */
  ghost function CheckStored(blocks: seq<Block>, k: nat): Option<nat>
    requires k <= |blocks|
  {
    if k == 0 then Some(1)
    else match CheckStored(blocks, k - 1)
      case None => None
      case Some(next) =>
        var b := blocks[k - 1];
        if b.id != BlockId(k) || b.kind !in {"paragraph", "table_cell"} || b.text == "" then None
        else match Parse(b.text)
          case None => None
          case Some(parts) =>
            if forall i :: 0 <= i < |parts.links| ==> parts.links[i].0 == LinkId(next + i)
            then Some(next + |parts.links|) else None
  }

  /** `docx_blocks_from_storage` accepts the map. */
  ghost predicate Reloads(blocks: seq<Block>) {
    blocks != [] && |blocks| <= MAX_DOCX_BLOCKS && CheckStored(blocks, |blocks|).Some?
  }

  /** The nested loops of `docx_blocks_from_storage`: one link counter runs through all blocks. */
  method BlocksFromStorage(blocks: seq<Block>) returns (ok: bool)
    ensures ok == Reloads(blocks)
  {
    hide Parse, BlockId, LinkId;
    if blocks == [] || |blocks| > MAX_DOCX_BLOCKS {
      return false;
    }
    var next := 1;
    for k := 0 to |blocks|
      invariant CheckStored(blocks, k) == Some(next)
    {
      var b := blocks[k];
      var parsed := LinkParts(b.text);
      if b.id != BlockId(k + 1) || b.kind !in {"paragraph", "table_cell"} || b.text == "" || parsed.None? {
        StoredErrorStays(blocks, k + 1, |blocks|);
        return false;
      }
      var links := parsed.value.links;
      ghost var first := next;
      for i := 0 to |links|
        invariant next == first + i
        invariant forall n :: 0 <= n < i ==> links[n].0 == LinkId(first + n)
      {
        if links[i].0 != LinkId(next) {
          assert CheckStored(blocks, k + 1).None?;
          StoredErrorStays(blocks, k + 1, |blocks|);
          return false;
        }
        next := next + 1;
      }
    }
    return true;
  }

  lemma {:induction false} StoredErrorStays(blocks: seq<Block>, k: nat, end: nat)
    requires k <= end <= |blocks| && CheckStored(blocks, k).None?
    ensures CheckStored(blocks, end).None?
    decreases end
  {
    hide Parse, BlockId, LinkId;
    if k < end {
      StoredErrorStays(blocks, k, end - 1);
    }
  }

  /** Link numbers that dropped paragraphs among the first `k` used up. */
  ghost function Lost(doc: seq<BodyPara>, rels: set<string>, k: nat): int
    requires k <= |doc|
  {
    if k == 0 then 0
    else
      var before := ExtractFirst(doc, rels, k - 1);
      Lost(doc, rels, k - 1) +
      if before.Ok? && ParagraphBlock(doc[k - 1].para, rels, before.value.number).Dropped?
      then ParagraphBlock(doc[k - 1].para, rels, before.value.number).number - before.value.number else 0
  }

  /** Paragraph `k` (counted from 1) is kept and holds a link. */
  ghost predicate KeepsLink(doc: seq<BodyPara>, rels: set<string>, k: nat)
    requires 0 < k <= |doc|
  {
    var before := ExtractFirst(doc, rels, k - 1);
    before.Ok? && var block := ParagraphBlock(doc[k - 1].para, rels, before.value.number);
    block.Kept? && block.number > before.value.number
  }

  /** No dropped paragraph used a link number before a kept link. */
  ghost predicate NoGap(doc: seq<BodyPara>, rels: set<string>, k: nat)
    requires k <= |doc|
  {
    forall i :: 0 < i <= k && KeepsLink(doc, rels, i) ==> Lost(doc, rels, i - 1) == 0
  }

  /** The first link that shows no text; the number of links if all do. */
  ghost function FirstBlank(layout: Layout): (k: nat)
    requires LayoutOk(layout)
    ensures k <= |layout.links| && (k < |layout.links| ==> TextOf(layout.links[k].items) == "")
    ensures forall i :: 0 <= i < k ==> TextOf(layout.links[i].items) != ""
  {
    FirstBlankFrom(layout, 0)
  }

  ghost function FirstBlankFrom(layout: Layout, from: nat): (k: nat)
    requires LayoutOk(layout) && from <= |layout.links|
    ensures from <= k <= |layout.links| && (k < |layout.links| ==> TextOf(layout.links[k].items) == "")
    ensures forall i :: from <= i < k ==> TextOf(layout.links[i].items) != ""
    decreases |layout.links| - from
  {
    if from == |layout.links| || TextOf(layout.links[from].items) == "" then from else FirstBlankFrom(layout, from + 1)
  }

  lemma {:induction false} ReadNumbers(layout: Layout, rels: set<string>, number: nat, k: nat)
    requires LayoutOk(layout) && k <= |layout.links|
    ensures var r := ReadLinks(layout, rels, number, k);
            && (r.Reading? ==> r.number == number + k && k <= FirstBlank(layout))
            && (r.GaveUp? ==> r.number == number + FirstBlank(layout) && FirstBlank(layout) < k)
  {
    hide TextOf, Reserved, BrokenRelationship, Token, LinkId, FirstBlank;
    if k > 0 {
      ReadNumbers(layout, rels, number, k - 1);
    }
  }

  /**
   On the content of a dropped paragraph: it numbers no link if its fields or breaks keep it from being read, and
   otherwise the links before the first one that shows no text; if all show text, no text node holds any of it.
   */
  lemma DroppedNumbers(p: Para, rels: set<string>, number: nat)
    requires ParagraphBlock(p, rels, number).Dropped?
    ensures var cs, layout := Cells(p.kids), LayoutOf(Cells(p.kids));
            var unread := layout.None? || HasOwnAlternateContent(cs) || HasInteriorLayoutBreak(cs);
            && (unread ==> ParagraphBlock(p, rels, number).number == number)
            && (!unread ==>
                  && LayoutOk(layout.value) && ParagraphBlock(p, rels, number).number == number + FirstBlank(layout.value)
                  && (FirstBlank(layout.value) < |layout.value.links| || !HasText(cs)))
  {
    hide Cells, LayoutOf, TextOf, Reserved, HasText, HasOwnAlternateContent, HasInteriorLayoutBreak, HasNestedHyperlink, ReadLinks, FirstBlank;
    var layout := LayoutOf(Cells(p.kids));
    if layout.Some? {
      ReadNumbers(layout.value, rels, number, |layout.value.links|);
    }
  }

  lemma {:induction false} ShowsSomething(cs: seq<Cell>)
    requires Walk(cs).At? && Walk(cs).links == 0 && Walk(cs).mode.Plain? && HasText(cs)
    ensures TextOf(Sel(cs, Zone(0, false))) != ""
  {
    hide Step;
    var a, c := cs[..|cs| - 1], cs[|cs| - 1];
    StepCase(Walk(a), c);
    var sel := Sel(a, Zone(0, false));
    if c.Found? && c.leaf.Text? && c.leaf.value != "" {
      assert ItemText(c) == c.leaf.value;
      OneText(c);
      TextOfAppend(sel, [c]);
    } else {
      assert forall i :: 0 <= i < |a| ==> a[i] == cs[i];
      assert HasText(a);
      ShowsSomething(a);
      if IsInline(c) {
        TextOfAppend(sel, [c]);
      } else {
        assert Sel(cs, Zone(0, false)) == sel;
      }
    }
  }

  lemma OneText(c: Cell)
    requires IsInline(c)
    ensures TextOf([c]) == ItemText(c)
  {
    assert TextOf([c][1..]) == "";
  }

  lemma KeptIsNonEmpty(p: Para, rels: set<string>, number: nat)
    requires ParagraphBlock(p, rels, number).Kept?
    ensures ParagraphBlock(p, rels, number).text != ""
  {
    hide Walk, Sel, TextOf, HasText, Cells, Anchors, ReadLinks, HasInteriorLayoutBreak, HasNestedHyperlink, HasOwnAlternateContent, Free;
    var cs := Cells(p.kids);
    KeptSays(p, rels, number);
    var layout := LayoutOf(cs).value;
    var parts := PartsOf(layout, number);
    if |layout.links| == 0 {
      assert layout.plain[0] == Sel(cs, Zone(0, false));
      ShowsSomething(cs);
    } else {
      assert |Token(parts.links[0])| > 0;
    }
  }

  /** As long as no gap shows, the loop expects one more than the links kept so far. */
  lemma {:induction false} StoredPrefix(doc: seq<BodyPara>, rels: set<string>, k: nat)
    requires k <= |doc| && Extract(doc, rels).Ok? && ExtractFirst(doc, rels, |doc|).value.number < 1_000_000
    ensures ExtractFirst(doc, rels, k).Ok?
    ensures var blocks, e := Extract(doc, rels).value, ExtractFirst(doc, rels, k).value;
            && |e.blocks| <= |blocks|
            && 0 <= Lost(doc, rels, k) <= e.number
            && CheckStored(blocks, |e.blocks|) == if NoGap(doc, rels, k) then Some((1 + e.number - Lost(doc, rels, k)) as nat) else None
  {
    hide ParagraphBlock, BlockId, Kind, ExtractFirst, Parse, LinkId;
    ExtractGrows(doc, rels, k, |doc|);
    if k == 0 {
      NothingExtracted(doc, rels);
      ExtractGrowsBlocks(doc, rels, k);
    } else {
      StoredPrefix(doc, rels, k - 1);
      ExtractGrowsBlocks(doc, rels, k);
      StoredStep(doc, rels, k);
    }
  }

  lemma ExtractGrowsBlocks(doc: seq<BodyPara>, rels: set<string>, k: nat)
    requires k <= |doc| && Extract(doc, rels).Ok? && ExtractFirst(doc, rels, k).Ok?
    ensures |ExtractFirst(doc, rels, k).value.blocks| <= |Extract(doc, rels).value|
  {
    hide ExtractFirst;
    ExtractGrows(doc, rels, k, |doc|);
  }

  lemma StoredStep(doc: seq<BodyPara>, rels: set<string>, k: nat)
    requires 0 < k <= |doc| && Extract(doc, rels).Ok? && ExtractFirst(doc, rels, |doc|).value.number < 1_000_000
    requires ExtractFirst(doc, rels, k - 1).Ok? && ExtractFirst(doc, rels, k).Ok?
    requires |ExtractFirst(doc, rels, k - 1).value.blocks| <= |Extract(doc, rels).value|
    requires |ExtractFirst(doc, rels, k).value.blocks| <= |Extract(doc, rels).value|
    requires 0 <= Lost(doc, rels, k - 1) <= ExtractFirst(doc, rels, k - 1).value.number
    requires CheckStored(Extract(doc, rels).value, |ExtractFirst(doc, rels, k - 1).value.blocks|) ==
             if NoGap(doc, rels, k - 1) then Some((1 + ExtractFirst(doc, rels, k - 1).value.number - Lost(doc, rels, k - 1)) as nat) else None
    ensures Lost(doc, rels, k - 1) <= Lost(doc, rels, k) <= ExtractFirst(doc, rels, k).value.number
    ensures CheckStored(Extract(doc, rels).value, |ExtractFirst(doc, rels, k).value.blocks|) ==
            if NoGap(doc, rels, k) then Some((1 + ExtractFirst(doc, rels, k).value.number - Lost(doc, rels, k)) as nat) else None
  {
    hide ParagraphBlock, BlockId, ExtractFirst, Parse, LinkId, CheckStored, NoGap, Cells, LayoutOf, TextOf, Print, LegalTexts;
    var e, blocks := ExtractFirst(doc, rels, k - 1).value, Extract(doc, rels).value;
    var p := doc[k - 1].para;
    var block := ParagraphBlock(p, rels, e.number);
    BlockAt(doc, rels, k);
    NumberGrows(p, rels, e.number);
    GapStep(doc, rels, k);
    if block.Kept? {
      KeptIsNonEmpty(p, rels, e.number);
      KeptParses(p, rels, e.number);
      StoredBlock(blocks, |e.blocks| + 1, p, rels, e.number);
    }
  }

  lemma GapStep(doc: seq<BodyPara>, rels: set<string>, k: nat)
    requires 0 < k <= |doc|
    ensures NoGap(doc, rels, k) <==> NoGap(doc, rels, k - 1) && (KeepsLink(doc, rels, k) ==> Lost(doc, rels, k - 1) == 0)
  {
    hide KeepsLink, Lost;
  }

  /** One stored block: its first link shows whether a number was lost. */
  lemma StoredBlock(blocks: seq<Block>, j: nat, p: Para, rels: set<string>, number: nat)
    requires 0 < j <= |blocks| && ParagraphBlock(p, rels, number).Kept? && ParagraphBlock(p, rels, number).number < 1_000_000
    requires blocks[j - 1].id == BlockId(j) && blocks[j - 1].text == ParagraphBlock(p, rels, number).text
    requires blocks[j - 1].kind == "paragraph" || blocks[j - 1].kind == "table_cell"
    requires CheckStored(blocks, j - 1).Some? ==> CheckStored(blocks, j - 1).value <= number + 1
    ensures var n := ParagraphBlock(p, rels, number).number - number;
            n >= 0 && CheckStored(blocks, j) ==
            if CheckStored(blocks, j - 1).Some? && (n > 0 ==> CheckStored(blocks, j - 1).value == number + 1)
            then Some(CheckStored(blocks, j - 1).value + n) else None
  {
    hide ParagraphBlock, BlockId, Parse, LinkId, LayoutOf, Cells, TextOf;
    KeptIsNonEmpty(p, rels, number);
    KeptParses(p, rels, number);
    var parts := PartsOf(LayoutOf(Cells(p.kids)).value, number);
    var before := CheckStored(blocks, j - 1);
    if before.Some? && |parts.links| > 0 && before.value != number + 1 {
      assert parts.links[0].0 == LinkId(number + 1);
      if LinkId(before.value + 0) == LinkId(number + 1) {
        LinkIdInjective(before.value, number + 1);
      }
    }
  }

  /**
   A block map extracted at upload reloads if and only if no paragraph dropped after numbering a link is
   followed by a kept link.
   */
  lemma ReloadsIffNoGap(doc: seq<BodyPara>, rels: set<string>)
    requires Extract(doc, rels).Ok? && ExtractFirst(doc, rels, |doc|).value.number < 1_000_000
    ensures Reloads(Extract(doc, rels).value) <==> NoGap(doc, rels, |doc|)
  {
    hide ExtractFirst, CheckStored, NoGap, Lost;
    StoredPrefix(doc, rels, |doc|);
    AtMostMax(doc, rels, |doc|);
  }

  lemma {:induction false} AtMostMax(doc: seq<BodyPara>, rels: set<string>, k: nat)
    requires k <= |doc| && ExtractFirst(doc, rels, k).Ok?
    ensures |ExtractFirst(doc, rels, k).value.blocks| <= MAX_DOCX_BLOCKS
  {
    hide ParagraphBlock, BlockId;
    if k > 0 {
      AtMostMax(doc, rels, k - 1);
    }
  }

  // ----- a document whose stored map does not reload -----

  /** A paragraph whose only content is a hyperlink around one run item. */
  function LinkOnly(leaf: Leaf): Para {
    Para([Element(0, Hyperlink(None, ""), [Element(1, DocxTree.Run(""), [Item(2, leaf)])])], 3)
  }

  /** A link that shows only a tab, then a link that shows text. */
  function GapDocument(): seq<BodyPara> {
    [BodyPara(LinkOnly(Glyph(Tab)), false), BodyPara(LinkOnly(Text("a")), false)]
  }

  lemma LinkOnlyCells(leaf: Leaf)
    ensures Cells(LinkOnly(leaf).kids) == [Open(0, Hyperlink(None, "")), Found(2, leaf, Place(true, false, false)), Close(0)]
  {
    var item := Item(2, leaf);
    var run := Element(1, DocxTree.Run(""), [item]);
    CellsOne(LinkOnly(leaf).kids[0]);
    OwnAllOne(run, TOP);
    OwnAllOne(item, Place(true, false, false));
  }

  lemma LinkOnlyLayout(leaf: Leaf)
    requires leaf.Text? || leaf.Glyph?
    ensures var item := Found(2, leaf, Place(true, false, false));
            LayoutOf(Cells(LinkOnly(leaf).kids)) ==
            Some(Layout([[], []], [Link(Anchor(0, 0, Some(Hyperlink(None, ""))), [item])]))
  {
    LinkOnlyCells(leaf);
    var open, item, close := Open(0, Hyperlink(None, "")), Found(2, leaf, Place(true, false, false)), Close(0);
    var cs := Cells(LinkOnly(leaf).kids);
    assert [] + [open] == [open] && [open] + [item] == [open, item] && [open, item] + [close] == cs;
    forall z
      ensures Walk(cs) == At(1, Plain) && Anchors(cs) == [Anchor(0, 0, Some(Hyperlink(None, "")))]
      ensures Sel(cs, z) == if z == Zone(0, true) then [item] else []
    {
      hide Walk, Sel, Anchors;
      EmptyWalk(z);
      Snoc([], open, z);
      assert Walk([open]) == At(0, Inside(0, Hyperlink(None, "")));
      Snoc([open], item, z);
      assert Walk([open, item]) == Walk([open]);
      Snoc([open, item], close, z);
    }
    hide Walk, Sel, Anchors;
    assert Sel(cs, Zone(0, true)) == [item] && Walk(cs) == At(1, Plain) && Anchors(cs) == [Anchor(0, 0, Some(Hyperlink(None, "")))];
    var layout := LayoutOf(cs).value;
    assert layout.plain[0] == Sel(cs, Zone(0, false)) == [] && layout.plain[1] == Sel(cs, Zone(1, false)) == [];
    assert layout.plain == [[], []];
    assert layout.links == [Link(Anchor(0, 0, Some(Hyperlink(None, ""))), [item])];
  }

  lemma EmptyWalk(z: Zone)
    ensures Walk([]) == At(0, Plain) && Sel([], z) == [] && Anchors([]) == []
  {
  }

  /** A link-only paragraph numbers its link, and is kept only if the link shows a text node. */
  lemma LinkOnlyBlock(leaf: Leaf, number: nat)
    requires leaf == Glyph(Tab) || leaf == Text("a")
    ensures var display := if leaf.Text? then "a" else "\t";
            ParagraphBlock(LinkOnly(leaf), {}, number) ==
            if leaf.Text? then Kept(Token((LinkId(number + 1), display)), number + 1) else Dropped(number + 1)
  {
    hide Cells, LayoutOf, LinkId, Token, Free, Reserved;
    LinkOnlyLayout(leaf);
    LinkOnlyCells(leaf);
    var item := Found(2, leaf, Place(true, false, false));
    var display := if leaf.Text? then "a" else "\t";
    OneText(item);
    assert TextOf([item]) == display && TextOf([]) == "";
    Short(display);
    Short("");
    var layout := LayoutOf(Cells(LinkOnly(leaf).kids)).value;
    assert ReadLinks(layout, {}, number, 1) == ReadLink(ReadLinks(layout, {}, number, 0), "", display, layout.links[0].anchor.tag, {});
    assert "" + "" + Token((LinkId(number + 1), display)) == Token((LinkId(number + 1), display));
    assert Token((LinkId(number + 1), display)) + "" == Token((LinkId(number + 1), display));
    var cs := Cells(LinkOnly(leaf).kids);
    assert leaf.Text? ==> cs[1].leaf.value != "";
  }

  lemma Short(s: string)
    requires |s| <= 1
    ensures !Reserved(s)
  {
  }

  /** The reload law fails for this document: its map is extracted but never accepted again. */
  lemma GapDoesNotReload()
    ensures Extract(GapDocument(), {}).Ok? && !Reloads(Extract(GapDocument(), {}).value)
  {
    hide ParagraphBlock, Reloads, Token, LinkId, BlockId, Kind;
    var doc := GapDocument();
    LinkOnlyBlock(Glyph(Tab), 0);
    LinkOnlyBlock(Text("a"), 1);
    assert ExtractFirst(doc, {}, 0) == Ok(Extraction([], 0));
    assert ExtractFirst(doc, {}, 1) == Ok(Extraction([], 1));
    assert ExtractFirst(doc, {}, 2).Ok? && ExtractFirst(doc, {}, 2).value.number == 2;
    assert Lost(doc, {}, 0) == 0;
    assert Lost(doc, {}, 1) == 1;
    assert KeepsLink(doc, {}, 2);
    ReloadsIffNoGap(doc, {});
  }
}
