/**
 One-paragraph documents for which each condition of the round trip fails in turn. Every one is extracted, its
 replacement is valid and rendered, and the rendered document does not give the replacement back.
 */
module DocxBoundaries {
  import opened DocxLinks
  import opened DocxTree
  import opened DocxLayout
  import opened DocxPatch
  import opened DocxEdits
  import opened DocxRewrite
  import opened DocxDocument
  import opened DocxRoundTrip
  import opened DocxRendering
  import opened DocxStored
  import opened DocxFrame

  lemma ParsesPlain(s: string)
    requires |s| <= 2
    ensures Parse(s) == Some(Parts([s], []))
  {
    hide Parse;
    assert Free(s);
    assert Print(Parts([s], [])) == s;
    ParseOfPrint(Parts([s], []));
  }

  function OneParagraph(p: Para): seq<BodyPara> {
    [BodyPara(p, false)]
  }

  /** A document of one kept paragraph. */
  lemma OneBlock(p: Para, text: string, n: nat)
    requires ParagraphBlock(p, {}, 0) == Kept(text, n) && n < 1_000_000 && Identified(p)
    ensures var doc := OneParagraph(p);
            && ExtractFirst(doc, {}, 0) == Ok(Extraction([], 0)) && IsKept(doc, {}, 0)
            && Extract(doc, {}) == Ok([Block(BlockId(1), "paragraph", text)]) && Parsed(doc, {})
  {
    hide ParagraphBlock, BlockId, Identified;
    var doc, e, block := OneParagraph(p), Extraction([], 0), Block(BlockId(1), "paragraph", text);
    assert ExtractFirst(doc, {}, 0) == Ok(e);
    assert e.blocks + [block] == [block];
    assert AddBlock(e, false, text, n) == Ok(Extraction([block], n));
    assert ExtractFirst(doc, {}, 1) == AddBlock(e, false, text, n);
  }

  lemma ShortIsValid(text: string, value: string)
    requires |text| <= 2 && |value| <= 2 && forall i :: 0 <= i < |value| ==> XmlLegal(value[i])
    ensures ValidReplacements([Block(BlockId(1), "paragraph", text)], [Replacement(BlockId(1), value)])
  {
    hide Parse, BlockId, IsBlockId, XmlLegal;
    BlockIdShape(1);
    ParsesPlain(text);
    ParsesPlain(value);
  }

  /** The replacement of the only block does not come back. */
  ghost predicate DoesNotReadBack(p: Para, text: string, value: string) {
    var doc, rs := OneParagraph(p), [Replacement(BlockId(1), value)];
    && Extract(doc, {}) == Ok([Block(BlockId(1), "paragraph", text)])
    && ValidReplacements(Extract(doc, {}).value, rs) && Render(doc, {}, rs).Ok?
    && Extract(Render(doc, {}, rs).value, {}) != Ok([Block(BlockId(1), "paragraph", value)])
  }

  lemma Fails(p: Para, text: string, value: string)
    requires ParagraphBlock(p, {}, 0) == Kept(text, 0) && Identified(p)
    requires |text| <= 2 && |value| <= 2 && forall i :: 0 <= i < |value| ==> XmlLegal(value[i])
    requires Shaped(Cells(p.kids), Parts([value], [])) && !ReadsBack(Cells(p.kids), Parts([value], []))
    ensures DoesNotReadBack(p, text, value)
  {
    hide Extract, Render, Parsed, ValidReplacements, BlockId, ParagraphBlock, Identified, Parse, ExtractFirst, IsKept, ReadsBack, Shaped, Cells, XmlLegal;
    var doc, rs := OneParagraph(p), [Replacement(BlockId(1), value)];
    OneBlock(p, text, 0);
    ShortIsValid(text, value);
    ParsesPlain(value);
    assert !ReadsBackAt(doc, {}, rs, 0);
    ExtractAfterRender(doc, {}, rs);
    var blocks := [Block(BlockId(1), "paragraph", text)];
    assert WithTexts(blocks, rs) == [Block(BlockId(1), "paragraph", value)];
  }

  // ----- paragraphs of text and characters only -----

  lemma {:induction false} QuietParagraph(cs: seq<Cell>)
    requires Quiet(cs)
    ensures Walk(cs) == At(0, Plain) && Sel(cs, Zone(0, false)) == InlineOf(cs)
    ensures LayoutOf(cs) == Some(Layout([InlineOf(cs)], []))
    ensures !HasInteriorLayoutBreak(cs) && !HasNestedHyperlink(cs)
  {
    hide InlineOf, Sel, Walk, Anchors;
    EmptyWalk(Zone(0, false));
    QuietTail([], cs, Zone(0, false));
    assert [] + cs == cs;
    var layout := LayoutOf(cs).value;
    assert |layout.plain| == 1 && layout.plain[0] == InlineOf(cs) && layout.links == [];
    assert layout.plain == [InlineOf(cs)];
    forall i | 0 <= i < |cs|
      ensures !IsBreak(cs[i])
    {
    }
  }

  lemma QuietBlock(p: Para, text: string)
    requires Quiet(Cells(p.kids)) && TextOf(InlineOf(Cells(p.kids))) == text && |text| <= 2
    requires !HasOwnAlternateContent(Cells(p.kids)) && HasText(Cells(p.kids))
    ensures ParagraphBlock(p, {}, 0) == Kept(text, 0)
    ensures Shaped(Cells(p.kids), Parts([text], []))
  {
    hide Cells, LayoutOf, TextOf, HasOwnAlternateContent, HasText, HasInteriorLayoutBreak, HasNestedHyperlink, Walk, Sel;
    QuietParagraph(Cells(p.kids));
    assert Free(text);
    assert "" + text == text;
  }

  lemma OneTextBlock(p: Para, c: Cell)
    requires Cells(p.kids) == [c] && c.Found? && c.leaf == Text("a") && !c.place.alternate
    ensures ParagraphBlock(p, {}, 0) == Kept("a", 0) && Quiet(Cells(p.kids)) && InlineOf(Cells(p.kids)) == [c]
  {
    hide Cells, ParagraphBlock, Shaped, InlineOf;
    InlineOfOne(c);
    OneText(c);
    hide TextOf;
    var cs := Cells(p.kids);
    assert cs[0].leaf.value != "";
    QuietBlock(p, "a");
  }

  lemma QuietShape(cs: seq<Cell>, value: string)
    requires Quiet(cs)
    ensures Shaped(cs, Parts([value], [])) && ZoneOf(0, 0) == Zone(0, false) && ValueOf(Parts([value], []), 0) == value
    ensures Sel(cs, Zone(0, false)) == InlineOf(cs)
  {
    hide Walk, Sel, InlineOf;
    QuietParagraph(cs);
  }

  // ----- no text node is left -----

  /** One run with the text "a". */
  function OneRun(): Para {
    Para([Element(0, DocxTree.Run(""), [Item(1, Text("a"))])], 2)
  }

  lemma OneRunCells()
    ensures Cells(OneRun().kids) == [Found(1, Text("a"), IN_RUN)] && Identified(OneRun())
  {
    CellsOne(OneRun().kids[0]);
    OwnAllOne(Item(1, Text("a")), IN_RUN);
    assert [Found(1, Text("a"), IN_RUN)][..0] == [] && Keys([]) == {};
  }

  lemma OneRunFacts()
    ensures ParagraphBlock(OneRun(), {}, 0) == Kept("a", 0) && Identified(OneRun())
    ensures Quiet(Cells(OneRun().kids)) && InlineOf(Cells(OneRun().kids)) == [Found(1, Text("a"), IN_RUN)]
  {
    hide Cells, Identified, ParagraphBlock, InlineOf;
    OneRunCells();
    OneTextBlock(OneRun(), Found(1, Text("a"), IN_RUN));
  }

  lemma TabIsNoText()
    ensures Shaped(Cells(OneRun().kids), Parts(["\t"], [])) && !Survives(Cells(OneRun().kids), Parts(["\t"], []))
  {
    hide Cells, Identified, ParagraphBlock, Shaped, Walk, Sel, InlineOf;
    OneRunFacts();
    QuietShape(Cells(OneRun().kids), "\t");
    OneText(Found(1, Text("a"), IN_RUN));
  }

  /** "a" replaced by a tab. */
  lemma TabDoesNotSurvive()
    ensures DoesNotReadBack(OneRun(), "a", "\t")
  {
    hide Cells, Identified, ParagraphBlock, Shaped, DoesNotReadBack, Safe, Clear, Aligned, Survives, InlineOf, OneRun;
    OneRunFacts();
    TabIsNoText();
    Fails(OneRun(), "a", "\t");
  }

  // ----- a special character outside a run -----

  /** The text "a" directly in the paragraph. */
  function Bare(): Para {
    Para([Item(0, Text("a"))], 1)
  }

  lemma BareCells()
    ensures Cells(Bare().kids) == [Found(0, Text("a"), TOP)] && Identified(Bare())
  {
    CellsOne(Bare().kids[0]);
    assert [Found(0, Text("a"), TOP)][..0] == [] && Keys([]) == {};
  }

  lemma BareFacts()
    ensures ParagraphBlock(Bare(), {}, 0) == Kept("a", 0) && Identified(Bare())
    ensures Quiet(Cells(Bare().kids)) && InlineOf(Cells(Bare().kids)) == [Found(0, Text("a"), TOP)]
  {
    hide Cells, Identified, ParagraphBlock, InlineOf;
    BareCells();
    OneTextBlock(Bare(), Found(0, Text("a"), TOP));
  }

  lemma BareIsUnsafe()
    ensures Shaped(Cells(Bare().kids), Parts(["b\t"], [])) && !Safe(Cells(Bare().kids), Parts(["b\t"], []))
  {
    hide Cells, Identified, ParagraphBlock, Shaped, Walk, Sel, InlineOf;
    BareFacts();
    var cs := Cells(Bare().kids);
    QuietShape(cs, "b\t");
    OneText(Found(0, Text("a"), TOP));
    assert GlyphFor("b\t"[1]).Some?;
    assert !SafeStretch(Sel(cs, ZoneOf(0, 0)), "b\t");
  }

  /** "a" outside a run replaced by "b" and a tab: the tab is lost. */
  lemma TabOutsideRunIsLost()
    ensures DoesNotReadBack(Bare(), "a", "b\t")
  {
    hide Cells, Identified, ParagraphBlock, Shaped, DoesNotReadBack, Safe, Clear, Aligned, Survives, InlineOf, Bare;
    BareFacts();
    BareIsUnsafe();
    Fails(Bare(), "a", "b\t");
  }

  /** The same rewrite leaves a tab outside any run: the frame changes. */
  lemma TabOutsideRunBreaksFrame()
    ensures Patch(Bare(), "b\t").Some? && Skeleton(Patch(Bare(), "b\t").value.kids) != Skeleton(Bare().kids)
  {
    hide Cells, Identified, ParagraphBlock, Shaped, Patch, Skeleton, Parse, Safe, Clear, Aligned, Survives, InlineOf, Bare, LinkId;
    BareFacts();
    BareIsUnsafe();
    ParsesPlain("b\t");
    ParagraphRoundTrip(Bare(), {}, 0, "b\t");
    PatchKeepsSkeleton(Bare(), "b\t");
  }

  // ----- text below AlternateContent -----

  /** A tab below AlternateContent, then a run with the text "a". */
  function Alternative(): Para {
    Para([Element(0, AlternateContent, [Element(1, DocxTree.Run(""), [Item(2, Glyph(Tab))])]),
          Element(3, DocxTree.Run(""), [Item(4, Text("a"))])], 5)
  }

  function AlternativeWalk(): seq<Cell> {
    [Found(2, Glyph(Tab), Place(true, false, true)), Found(4, Text("a"), IN_RUN)]
  }

  lemma AlternativeCells()
    ensures Cells(Alternative().kids) == AlternativeWalk()
  {
    var kids := Alternative().kids;
    var run := Element(1, DocxTree.Run(""), [Item(2, Glyph(Tab))]);
    OwnAllOne(run, Place(false, false, true));
    OwnAllOne(Item(2, Glyph(Tab)), Place(true, false, true));
    OwnAllOne(Item(4, Text("a")), IN_RUN);
    CellsOne(kids[1]);
    assert kids[1..] == [kids[1]];
    assert ChildCells(kids[0]) == [AlternativeWalk()[0]];
  }

  lemma AlternativeIdentified()
    ensures Identified(Alternative())
  {
    hide Cells;
    AlternativeCells();
    var cs := AlternativeWalk();
    assert cs[..1][..0] == [] && Keys([]) == {} && Unique([], 5);
    assert Keys(cs[..1]) == {(0, 2)} && Unique(cs[..1], 5);
  }

  lemma AlternativeFacts()
    ensures ParagraphBlock(Alternative(), {}, 0) == Kept("\ta", 0)
    ensures Quiet(Cells(Alternative().kids)) && InlineOf(Cells(Alternative().kids)) == AlternativeWalk() && TextOf(AlternativeWalk()) == "\ta"
  {
    hide Cells, ParagraphBlock, Shaped;
    AlternativeCells();
    var cs := AlternativeWalk();
    InlineOfInline(cs);
    assert cs[1..] == [cs[1]];
    OneText(cs[1]);
    assert TextOf(cs) == "\t" + "a" == "\ta";
    assert HasText(cs) by {
      assert cs[1].leaf.value != "";
    }
    QuietBlock(Alternative(), "\ta");
  }

  lemma AlternativeIsUnclear()
    ensures Shaped(Cells(Alternative().kids), Parts(["b"], [])) && !Clear(Cells(Alternative().kids), Parts(["b"], []))
  {
    hide Cells, ParagraphBlock, Shaped, Walk, Sel, InlineOf, TextOf;
    AlternativeFacts();
    var cs := Cells(Alternative().kids);
    QuietShape(cs, "b");
    assert GlyphFor("b"[0]).None?;
    assert !ClearStretch(Sel(cs, ZoneOf(0, 0)), "b");
  }

  /** The whole text replaced by "b": it is written where the tab was, and the paragraph is not touched again. */
  lemma TextBelowAlternateContent()
    ensures DoesNotReadBack(Alternative(), "\ta", "b")
  {
    hide Cells, Identified, ParagraphBlock, Shaped, DoesNotReadBack, Safe, Clear, Aligned, Survives, InlineOf, Alternative, TextOf;
    AlternativeFacts();
    AlternativeIdentified();
    AlternativeIsUnclear();
    Fails(Alternative(), "\ta", "b");
  }

  // ----- text on both sides of a page break -----

  /** An empty text node, a page break, and a hyperlink that shows "x". */
  function Paged(): Para {
    Para([Element(0, DocxTree.Run(""), [Item(1, Text("")), Item(2, LayoutBreak(false))]),
          Element(3, Hyperlink(None, ""), [Element(4, DocxTree.Run(""), [Item(5, Text("x"))])])], 6)
  }

  function PagedCells(): seq<Cell> {
    [Found(1, Text(""), IN_RUN), Found(2, LayoutBreak(false), IN_RUN), Open(3, Hyperlink(None, "")),
     Found(5, Text("x"), Place(true, false, false)), Close(3)]
  }

  lemma PagedWalk()
    ensures Cells(Paged().kids) == PagedCells()
  {
    var kids := Paged().kids;
    var first := kids[0].kids;
    var run := Element(4, DocxTree.Run(""), [Item(5, Text("x"))]);
    OwnAllOne(run, TOP);
    OwnAllOne(Item(5, Text("x")), Place(true, false, false));
    OwnAllOne(first[1], IN_RUN);
    assert first[1..] == [first[1]];
    assert OwnAll(first, IN_RUN) == [Found(1, Text(""), IN_RUN), Found(2, LayoutBreak(false), IN_RUN)];
    CellsOne(kids[1]);
    assert kids[1..] == [kids[1]];
  }

  lemma PagedIdentified()
    ensures Identified(Paged())
  {
    PagedWalk();
    var cs := PagedCells();
    assert cs[..4][..3] == cs[..3] && cs[..3][..2] == cs[..2] && cs[..2][..1] == cs[..1] && cs[..1][..0] == [];
    assert Keys([]) == {} && Unique([], 6);
    assert Keys(cs[..1]) == {(0, 1)} && Unique(cs[..1], 6);
    assert Keys(cs[..2]) == {(0, 1), (0, 2)} && Unique(cs[..2], 6);
    assert Keys(cs[..3]) == {(0, 1), (0, 2), (1, 3)} && Unique(cs[..3], 6);
    assert Keys(cs[..4]) == {(0, 1), (0, 2), (1, 3), (0, 5)} && Unique(cs[..4], 6);
  }

  /** What the field machine makes of the paragraph. */
  lemma PagedMachine(z: Zone)
    ensures Walk(PagedCells()) == At(1, Plain) && Anchors(PagedCells()) == [Anchor(3, 3, Some(Hyperlink(None, "")))]
    ensures Sel(PagedCells(), z) == if z == Zone(0, false) then [PagedCells()[0]] else if z == Zone(0, true) then [PagedCells()[3]] else []
    ensures Spots(PagedCells(), z) == if z == Zone(0, false) then [0] else if z == Zone(0, true) then [1] else []
  {
    hide Walk, Sel, Anchors, Spots, Breaks;
    var cs := PagedCells();
    var a, b, c, d := cs[..1], cs[..2], cs[..3], cs[..4];
    assert a == [] + [cs[0]] && b == a + [cs[1]] && c == b + [cs[2]] && d == c + [cs[3]] && cs == d + [cs[4]];
    EmptyWalk(z);
    NothingSpotted(map[], z);
    Snoc([], cs[0], z);
    SpotsSnoc([], cs[0], z);
    assert Walk(a) == At(0, Plain) && Breaks(a) == 0;
    Snoc(a, cs[1], z);
    SpotsSnoc(a, cs[1], z);
    assert Walk(b) == At(0, Plain) && Breaks(b) == 1;
    Snoc(b, cs[2], z);
    SpotsSnoc(b, cs[2], z);
    assert Walk(c) == At(0, Inside(3, Hyperlink(None, ""))) && Breaks(c) == 1;
    Snoc(c, cs[3], z);
    SpotsSnoc(c, cs[3], z);
    assert Walk(d) == Walk(c) && Breaks(d) == 1;
    Snoc(d, cs[4], z);
    SpotsSnoc(d, cs[4], z);
  }

  lemma PagedLayout()
    ensures LayoutOf(PagedCells()) ==
            Some(Layout([[PagedCells()[0]], []], [Link(Anchor(3, 3, Some(Hyperlink(None, ""))), [PagedCells()[3]])]))
  {
    hide Walk, Sel, Anchors, Spots;
    var cs := PagedCells();
    PagedMachine(Zone(0, false));
    PagedMachine(Zone(1, false));
    PagedMachine(Zone(0, true));
    var layout := LayoutOf(cs).value;
    assert layout.plain == [[cs[0]], []];
    assert layout.links == [Link(Anchor(3, 3, Some(Hyperlink(None, ""))), [cs[3]])];
  }

  const PAGED := Token((LinkId(1), "x"))

  lemma PagedBlock()
    ensures ParagraphBlock(Paged(), {}, 0) == Kept(PAGED, 1)
  {
    hide Cells, LayoutOf, LinkId, Token, Free, Reserved;
    PagedWalk();
    PagedLayout();
    var cs := PagedCells();
    var layout := LayoutOf(cs).value;
    OneText(cs[0]);
    OneText(cs[3]);
    assert TextOf([]) == "";
    Short("x");
    Short("");
    assert ReadLinks(layout, {}, 0, 0) == Reading("", 0);
    assert "" + "" + PAGED == PAGED && PAGED + "" == PAGED;
    assert ReadLinks(layout, {}, 0, 1) == Reading(PAGED, 1);
    assert !HasInteriorLayoutBreak(cs) by {
      assert forall i :: 0 <= i < |cs| && Shows(cs[i]) ==> i == 3;
    }
    assert cs[3].leaf.value != "";
  }

  /** "y" before the link. */
  function PagedParts(): Parts {
    Parts(["y", ""], [(LinkId(1), "x")])
  }

  lemma PagedIsUnaligned()
    ensures Shaped(PagedCells(), PagedParts()) && !Aligned(PagedCells(), PagedParts())
  {
    hide Walk, Sel, Spots, LinkId, StartSpot, EndSpot;
    var cs, parts := PagedCells(), PagedParts();
    PagedMachine(Zone(0, false));
    PagedMachine(Zone(0, true));
    OneText(cs[0]);
    OneText(cs[3]);
    assert ZoneOf(1, 0) == Zone(0, false) && ZoneOf(1, 2) == Zone(0, true);
    assert SpotsAfter(cs, parts, 0) == {0};
    assert Spots(cs, Zone(0, true))[0] in ShownSpots(Sel(cs, Zone(0, true)), Spots(cs, Zone(0, true)));
    assert 1 in SpotsAfter(cs, parts, 2);
  }

  predicate Legal(s: string) {
    forall i :: 0 <= i < |s| ==> XmlLegal(s[i])
  }

  lemma LinkIdIsLegal(id: string)
    requires IsLinkId(id)
    ensures Legal(id)
  {
    assert forall i :: 1 <= i < |id| ==> id[i] == id[1..][i - 1];
  }

  lemma PagedIsLegal()
    ensures Legal(Print(PagedParts()))
  {
    hide LinkId, XmlLegal;
    var id := LinkId(1);
    LinkIdShape(1);
    LinkIdIsLegal(id);
    PlainIsLegal();
    var parts := PagedParts();
    assert parts.plain[1..] == [""] && parts.links[1..] == [];
    assert Print(Parts([""], [])) == "";
    assert Legal(Token((id, "x")));
  }

  lemma PlainIsLegal()
    ensures Legal(OPEN_PREFIX) && Legal(CLOSE_PREFIX) && Legal("}}") && Legal("x") && Legal("y")
  {
  }

  lemma PagedIsValid()
    ensures Parse(Print(PagedParts())) == Some(PagedParts())
    ensures ValidReplacements([Block(BlockId(1), "paragraph", PAGED)], [Replacement(BlockId(1), Print(PagedParts()))])
  {
    hide Parse, BlockId, IsBlockId, LinkId, Print, Token, XmlLegal, IsLinkId, Free;
    BlockIdShape(1);
    LinkIdShape(1);
    PagedIsLegal();
    Short("x");
    Short("y");
    Short("");
    var own := Parts(["", ""], [(LinkId(1), "x")]);
    ParseOfPrint(PagedParts());
    ParseOfPrint(own);
    PagedPrints();
    assert LinkIds(PagedParts().links) == LinkIds(own.links);
  }

  lemma PagedPrints()
    ensures Print(Parts(["", ""], [(LinkId(1), "x")])) == PAGED
  {
    hide LinkId, Token;
    var p := Parts(["", ""], [(LinkId(1), "x")]);
    assert p.plain[1..] == [""] && p.links[1..] == [];
    assert Print(Parts([""], [])) == "";
  }

  /** "y" written before the link lands before the page break, the link stays after it: the paragraph is dropped. */
  lemma TextAcrossPageBreak()
    ensures var doc, rs, text := OneParagraph(Paged()), [Replacement(BlockId(1), Print(PagedParts()))], Print(PagedParts());
            && Extract(doc, {}) == Ok([Block(BlockId(1), "paragraph", PAGED)])
            && ValidReplacements(Extract(doc, {}).value, rs) && Render(doc, {}, rs).Ok?
            && Extract(Render(doc, {}, rs).value, {}) != Ok([Block(BlockId(1), "paragraph", text)])
  {
    hide Extract, Render, Parsed, ValidReplacements, BlockId, ParagraphBlock, Identified, Parse, ExtractFirst, IsKept, Shaped, Cells, Print, Token, LinkId,
         PagedCells, Aligned, Safe, Clear, Survives;
    var doc, rs := OneParagraph(Paged()), [Replacement(BlockId(1), Print(PagedParts()))];
    PagedBlock();
    PagedIdentified();
    OneBlock(Paged(), PAGED, 1);
    PagedIsValid();
    PagedWalk();
    PagedIsUnaligned();
    assert !ReadsBackAt(doc, {}, rs, 0);
    ExtractAfterRender(doc, {}, rs);
    var blocks := [Block(BlockId(1), "paragraph", PAGED)];
    assert WithTexts(blocks, rs) == [Block(BlockId(1), "paragraph", Print(PagedParts()))];
  }
}
