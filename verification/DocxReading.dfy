/**
 What extraction reads (`_paragraph_block`, `_parse_package` and `_plain_text_from_validated`, src/oveo/docx.py),
 said of the element tree: a paragraph yields a block exactly if it can be edited, and without its link tokens the
 block's text is the paragraph's own visible text in document order.
 */
module DocxReading {
  import opened DocxLinks
  import opened DocxTree
  import opened DocxLayout
  import opened DocxPatch
  import opened DocxDocument
  import opened DocxRoundTrip
  import opened DocxRendering
  import opened DocxStored
  import Fields = DocxFields
  import OwnText = DocxOwnText

  // ----- visible text -----

  /** What one leaf of the tree shows in this paragraph; special characters count only in runs. */
  function SpotText(s: OwnText.Spot): string {
    if !OwnText.Belongs(s.above) || s.LinkSpot? then ""
    else match s.leaf
      case Text(value) => value
      case Glyph(g) =>
        if s.above == [] || !s.above[|s.above| - 1].Run? then ""
        else (match g case Tab => "\t" case LineBreak => "\n" case CarriageReturn => "\n" case NoBreakHyphen => "\U{2011}" case SoftHyphen => "\U{00ad}")
      case _ => ""
  }

  function VisibleText(spots: seq<OwnText.Spot>): string {
    if spots == [] then "" else VisibleText(spots[..|spots| - 1]) + SpotText(spots[|spots| - 1])
  }

  lemma OneShown(s: OwnText.Spot)
    ensures TextOf(InlineOf(OwnText.OwnCells([s]))) == SpotText(s)
  {
    OwnText.OwnCellsOne(s);
    NothingInline();
    var c := OwnText.CellOf(s);
    InlineOfOne(c);
    if OwnText.Belongs(s.above) && IsInline(c) {
      assert [c][1..] == [] && ItemText(c) + "" == ItemText(c);
    }
  }

  lemma {:induction false} VisibleIsInline(spots: seq<OwnText.Spot>)
    ensures TextOf(InlineOf(OwnText.OwnCells(spots))) == VisibleText(spots)
  {
    hide OwnText.OwnCells, InlineOf, TextOf, SpotText;
    if spots == [] {
      OwnText.NoSpots();
      NothingInline();
      NoText();
    } else {
      var before, s := spots[..|spots| - 1], spots[|spots| - 1];
      assert spots == before + [s];
      VisibleIsInline(before);
      OneShown(s);
      OwnText.OwnCellsAppend(before, [s]);
      InlineOfAppend(OwnText.OwnCells(before), OwnText.OwnCells([s]));
      TextOfAppend(InlineOf(OwnText.OwnCells(before)), InlineOf(OwnText.OwnCells([s])));
    }
  }

  lemma NoText()
    ensures TextOf([]) == ""
  {
  }

  lemma {:induction false} EndsShowNothing(cs: seq<Cell>)
    ensures InlineOf(OwnText.WithoutEnds(cs)) == InlineOf(cs)
  {
    if cs != [] {
      hide InlineOf;
      var before, c := cs[..|cs| - 1], cs[|cs| - 1];
      EndsShowNothing(before);
      assert cs == before + [c];
      InlineOfAppend(before, [c]);
      InlineOfOne(c);
      InlineOfAppend(OwnText.WithoutEnds(before), [c]);
      if c.Close? {
        assert InlineOf(before) + [] == InlineOf(before) && OwnText.WithoutEnds(before) + [] == OwnText.WithoutEnds(before);
      }
    }
  }

  lemma VisibleIsRead(kids: seq<Node>)
    ensures TextOf(InlineOf(Cells(kids))) == VisibleText(OwnText.BelowAll(kids, []))
  {
    hide Cells, InlineOf, TextOf, OwnText.BelowAll, VisibleText;
    OwnText.CellsAreOwn(kids);
    EndsShowNothing(Cells(kids));
    VisibleIsInline(OwnText.BelowAll(kids, []));
  }

  // ----- the stretches of a layout are the inline items in order -----

  /** The text of the first `k` texts and links, alternating. */
  ghost function TextFirst(layout: Layout, k: nat): string
    requires LayoutOk(layout) && k <= |layout.links|
  {
    if k == 0 then "" else TextFirst(layout, k - 1) + TextOf(layout.plain[k - 1]) + TextOf(layout.links[k - 1].items)
  }

  lemma {:induction false} CodeShowsNothing(cs: seq<Cell>)
    requires Fields.AllInCode(cs)
    ensures InlineOf(cs) == []
  {
    if cs != [] {
      assert Fields.InCode(cs[|cs| - 1]);
      CodeShowsNothing(cs[..|cs| - 1]);
    }
  }

  lemma PieceShows(p: Fields.Piece)
    requires Fields.PieceOk(p)
    ensures InlineOf(Fields.PieceCells(p)) == InlineOf(Fields.Shown(p))
  {
    hide InlineOf, Fields.AllInCode, Fields.AllNeutral, IsHyperlinkCode;
    match p
    case LinkElement(open, inner, close) =>
      InlineOfOne(open);
      InlineOfOne(close);
      InlineOfAppend([open] + inner, [close]);
      InlineOfAppend([open], inner);
      assert [] + InlineOf(inner) + [] == InlineOf(inner);
    case LinkField(begin, code, separate, result, end) =>
      InlineOfOne(begin);
      InlineOfOne(separate);
      InlineOfOne(end);
      CodeShowsNothing(code);
      InlineOfAppend([begin], code);
      InlineOfAppend([begin] + code, [separate]);
      InlineOfAppend([begin] + code + [separate], result);
      InlineOfAppend([begin] + code + [separate] + result, [end]);
      assert [] + InlineOf(result) + [] == InlineOf(result);
  }

  lemma {:induction false} SentenceShows(texts: seq<seq<Cell>>, links: seq<Fields.Piece>, k: nat)
    requires Fields.Sentence(texts, links) && k <= |links|
    ensures var layout := Fields.LayoutOfSentence(texts, links);
            && LayoutOk(layout)
            && TextOf(InlineOf(Fields.Flat(texts[..k + 1], links[..k]))) == TextFirst(layout, k) + TextOf(layout.plain[k])
  {
    hide InlineOf, TextOf, Fields.PieceCells, Fields.PieceOk, Fields.Shown, Fields.AllNeutral, Fields.AnchorOf;
    var layout := Fields.LayoutOfSentence(texts, links);
    var ts, ls := texts[..k + 1], links[..k];
    if k == 0 {
      assert "" + TextOf(layout.plain[0]) == TextOf(layout.plain[0]);
    } else {
      SentenceShows(texts, links, k - 1);
      assert ts[..k] == texts[..k] && ls[..k - 1] == links[..k - 1] && ls[k - 1] == links[k - 1] && ts[k] == texts[k];
      var a, p, t := Fields.Flat(texts[..k], links[..k - 1]), Fields.PieceCells(links[k - 1]), texts[k];
      PieceShows(links[k - 1]);
      InlineOfAppend(a + p, t);
      InlineOfAppend(a, p);
      TextOfAppend(InlineOf(a), InlineOf(p));
      TextOfAppend(InlineOf(a) + InlineOf(p), InlineOf(t));
    }
  }

  /** Every own inline item is in exactly one stretch, and the stretches alternate in document order. */
  lemma LayoutShowsAll(cs: seq<Cell>)
    requires LayoutOf(cs).Some?
    ensures var layout := LayoutOf(cs).value;
            LayoutOk(layout) && TextOf(InlineOf(cs)) == TextFirst(layout, |layout.links|) + TextOf(layout.plain[|layout.links|])
  {
    hide LayoutOf, InlineOf, TextOf, TextFirst, Fields.Flat, Fields.LayoutOfSentence, Fields.PieceOk, Fields.AllNeutral;
    var layout := LayoutOf(cs).value;
    Fields.LayoutIffSentence(cs, layout);
    var texts, links :| Fields.Sentence(texts, links) && Fields.Flat(texts, links) == cs && layout == Fields.LayoutOfSentence(texts, links);
    SentenceShows(texts, links, |links|);
    assert texts[..|links| + 1] == texts && links[..|links|] == links;
    SentenceSize(texts, links);
  }

  lemma SentenceSize(texts: seq<seq<Cell>>, links: seq<Fields.Piece>)
    requires Fields.Sentence(texts, links)
    ensures |Fields.LayoutOfSentence(texts, links).links| == |links|
  {
  }

  // ----- block text without its tokens -----

  lemma {:induction false} PlainFromFirst(p: Parts, layout: Layout, number: nat, k: nat)
    requires LayoutOk(layout) && p == PartsOf(layout, number) && k <= |layout.links|
    ensures PlainParts(p) == TextFirst(layout, k) + PlainParts(Parts(p.plain[k..], p.links[k..]))
  {
    hide TextOf, LinkId;
    if k == 0 {
      assert p.plain[0..] == p.plain && p.links[0..] == p.links;
      assert "" + PlainParts(p) == PlainParts(p);
    } else {
      PlainFromFirst(p, layout, number, k - 1);
      assert p.plain[k - 1..][1..] == p.plain[k..] && p.links[k - 1..][1..] == p.links[k..];
      assert p.plain[k - 1..][0] == TextOf(layout.plain[k - 1]) && p.links[k - 1..][0].1 == TextOf(layout.links[k - 1].items);
      var a, b, c, d := TextFirst(layout, k - 1), p.plain[k - 1], p.links[k - 1].1, PlainParts(Parts(p.plain[k..], p.links[k..]));
      assert a + (b + c + d) == a + b + c + d;
    }
  }

  /** A block without its link tokens is the visible text of its paragraph, no more and no less. */
  lemma BlockShowsOwnText(p: Para, rels: set<string>, number: nat)
    requires ParagraphBlock(p, rels, number).Kept? && ParagraphBlock(p, rels, number).number < 1_000_000
    ensures PlainBlock(ParagraphBlock(p, rels, number).text) == VisibleText(OwnText.BelowAll(p.kids, []))
  {
    hide ParagraphBlock, Parse, Cells, LayoutOf, TextOf, InlineOf, VisibleText, OwnText.BelowAll, TextFirst, LinkId;
    KeptParses(p, rels, number);
    var cs := Cells(p.kids);
    var layout := LayoutOf(cs).value;
    var parts := PartsOf(layout, number);
    VisibleIsRead(p.kids);
    LayoutShowsAll(cs);
    var n := |layout.links|;
    PlainFromFirst(parts, layout, number, n);
    assert parts.plain[n..][0] == TextOf(layout.plain[n]);
  }

  // ----- plain text of any block map -----

  /** A text cut into pieces, some of them link tokens. */
  datatype Cut = Cut(token: bool, text: string)

  function Cuts(p: Parts): seq<Cut>
    requires |p.plain| == |p.links| + 1
    decreases |p.links|
  {
    if p.links == [] then [Cut(false, p.plain[0])]
    else
      [Cut(false, p.plain[0]), Cut(true, "{{OVEO_LINK_" + p.links[0].0 + "}}"), Cut(false, p.links[0].1), Cut(true, "{{/OVEO_LINK_" + p.links[0].0 + "}}")]
      + Cuts(Parts(p.plain[1..], p.links[1..]))
  }

  function Glue(cuts: seq<Cut>, tokens: bool): string {
    if cuts == [] then "" else (if cuts[0].token && !tokens then "" else cuts[0].text) + Glue(cuts[1..], tokens)
  }

  lemma {:induction false} GlueAppend(a: seq<Cut>, b: seq<Cut>, tokens: bool)
    ensures Glue(a + b, tokens) == Glue(a, tokens) + Glue(b, tokens)
  {
    if a == [] {
      assert a + b == b;
    } else {
      GlueAppend(a[1..], b, tokens);
      HeadAndTail(a, b);
      Regroup(if a[0].token && !tokens then "" else a[0].text, Glue(a[1..], tokens), Glue(b, tokens));
    }
  }

  lemma GlueFour(a: string, b: string, c: string, d: string)
    ensures var cuts := [Cut(false, a), Cut(true, b), Cut(false, c), Cut(true, d)];
            Glue(cuts, true) == a + (b + c + d) && Glue(cuts, false) == a + c
  {
    var cuts := [Cut(false, a), Cut(true, b), Cut(false, c), Cut(true, d)];
    assert cuts[1..] == [Cut(true, b), Cut(false, c), Cut(true, d)];
    assert cuts[1..][1..] == [Cut(false, c), Cut(true, d)];
    assert cuts[1..][1..][1..] == [Cut(true, d)];
    assert cuts[1..][1..][1..][1..] == [];
    var tail := cuts[1..][1..][1..];
    assert Glue(tail, true) == d + "" == d && Glue(tail, false) == "" + "" == "";
    assert Glue(cuts[1..][1..], true) == c + d && Glue(cuts[1..][1..], false) == c + "" == c;
    assert Glue(cuts[1..], true) == b + (c + d) == b + c + d && Glue(cuts[1..], false) == "" + c == c;
  }

  lemma {:induction false} CutsGlue(p: Parts)
    requires |p.plain| == |p.links| + 1
    ensures Glue(Cuts(p), true) == Print(p) && Glue(Cuts(p), false) == PlainParts(p)
    decreases |p.links|
  {
    hide Glue;
    if p.links == [] {
      GlueOne(p.plain[0]);
    } else {
      var rest := Parts(p.plain[1..], p.links[1..]);
      CutsGlue(rest);
      var id, display := p.links[0].0, p.links[0].1;
      var open, close := "{{OVEO_LINK_" + id + "}}", "{{/OVEO_LINK_" + id + "}}";
      GlueFour(p.plain[0], open, display, close);
      var head := [Cut(false, p.plain[0]), Cut(true, open), Cut(false, display), Cut(true, close)];
      GlueAppend(head, Cuts(rest), true);
      GlueAppend(head, Cuts(rest), false);
    }
  }

  lemma GlueOne(a: string)
    ensures Glue([Cut(false, a)], true) == a && Glue([Cut(false, a)], false) == a
  {
    assert [Cut(false, a)][1..] == [];
  }

  /** The plain text of an accepted text is the text with its opening and closing tokens cut out. */
  lemma PlainIsWithoutTokens(text: string)
    requires Parse(text).Some?
    ensures var cuts := Cuts(Parse(text).value);
            && Glue(cuts, true) == text && Glue(cuts, false) == PlainBlock(text)
            && forall i :: 0 <= i < |cuts| && !cuts[i].token ==> Free(cuts[i].text)
  {
    hide Parse, Print, Cuts, Free;
    var p := Parse(text).value;
    PrintOfParse(text);
    CutsGlue(p);
    CutsAreFree(p);
  }

  lemma {:induction false} CutsAreFree(p: Parts)
    requires Clean(p)
    ensures forall i :: 0 <= i < |Cuts(p)| && !Cuts(p)[i].token ==> Free(Cuts(p)[i].text)
    decreases |p.links|
  {
    hide Free, IsDigits;
    if p.links != [] {
      CutsAreFree(Parts(p.plain[1..], p.links[1..]));
    }
  }

  /** Blocks are joined by blank lines, and nothing is put before the first or after the last. */
  lemma {:induction false} PlainTextJoins(a: seq<string>, b: seq<string>)
    ensures PlainText([]) == "" && forall t :: PlainText([t]) == PlainBlock(t)
    ensures a != [] && b != [] ==> PlainText(a + b) == PlainText(a) + "\n\n" + PlainText(b)
    decreases |b|
  {
    hide PlainBlock;
    if a != [] && b != [] {
      var b', t := b[..|b| - 1], b[|b| - 1];
      PlainTextJoins(a, b');
      assert (a + b)[..|a + b| - 1] == a + b' && (a + b)[|a + b| - 1] == t;
      if b' == [] {
        assert a + b' == a && b == [t];
      } else {
        var x, y, z := PlainText(a), PlainText(b'), PlainBlock(t);
        assert x + "\n\n" + (y + "\n\n" + z) == x + "\n\n" + y + "\n\n" + z;
      }
    }
  }

  // ----- which paragraphs yield a block -----

  predicate IsVisible(c: Cell) {
    c.Found? && ((c.leaf.Text? && c.leaf.value != "") || (c.leaf.Glyph? && c.place.inRun))
  }

  /** The links of a paragraph that can be edited: visible, free of token text, with intact relationships. */
  ghost predicate GoodLinks(layout: Layout, rels: set<string>) {
    && LayoutOk(layout)
    && (forall i :: 0 <= i < |layout.plain| ==> Free(TextOf(layout.plain[i])))
    && (forall i :: 0 <= i < |layout.links| ==> TextOf(layout.links[i].items) != "" && Free(TextOf(layout.links[i].items)))
    && (forall i, rel, attributes :: 0 <= i < |layout.links| && layout.links[i].anchor.tag == Some(Hyperlink(Some(rel), attributes)) ==> rel in rels)
  }

  /** No alternative rendering of its text, no page or column break within it, no nested hyperlink, and some text. */
  ghost predicate GoodCells(cs: seq<Cell>) {
    && (forall i :: 0 <= i < |cs| && cs[i].Found? && cs[i].leaf.Text? ==> !cs[i].place.alternate)
    && (forall i, j, k :: 0 <= i < j < k < |cs| && IsVisible(cs[i]) && IsVisible(cs[k]) ==> !(cs[j].Found? && cs[j].leaf.LayoutBreak?))
    && (forall i :: 0 <= i < |cs| && cs[i].Nested? ==> !cs[i].tag.Hyperlink?)
    && (exists i :: 0 <= i < |cs| && cs[i].Found? && cs[i].leaf.Text? && cs[i].leaf.value != "")
  }

  lemma VisibleShows(c: Cell)
    ensures IsVisible(c) <==> Shows(c)
  {
  }

  lemma CellsAreGood(cs: seq<Cell>)
    ensures GoodCells(cs) <==> !HasOwnAlternateContent(cs) && !HasInteriorLayoutBreak(cs) && !HasNestedHyperlink(cs) && HasText(cs)
  {
    hide Shows, IsVisible;
    forall c
      ensures IsVisible(c) <==> Shows(c)
    {
      VisibleShows(c);
    }
  }

  lemma RelationshipsHold(layout: Layout, rels: set<string>)
    ensures GoodTags(layout, rels) <==>
            forall i, rel, attributes :: 0 <= i < |layout.links| && layout.links[i].anchor.tag == Some(Hyperlink(Some(rel), attributes)) ==> rel in rels
  {
    if !GoodTags(layout, rels) {
      var i :| 0 <= i < |layout.links| && BrokenRelationship(layout.links[i].anchor.tag, rels);
      var tag := layout.links[i].anchor.tag.value;
      assert layout.links[i].anchor.tag == Some(Hyperlink(Some(tag.rel.value), tag.attributes));
    }
  }

  /** The block of paragraph `p`: the stretches of a good layout with their links as numbered tokens. */
  ghost predicate Yields(p: Para, rels: set<string>, number: nat, text: string, n: nat) {
    exists layout ::
      && Fields.Reads(Cells(p.kids), layout) && GoodCells(Cells(p.kids)) && GoodLinks(layout, rels)
      && text == Print(PartsOf(layout, number)) && n == number + |layout.links|
  }

  lemma YieldedIsKept(p: Para, rels: set<string>, number: nat, layout: Layout)
    requires LayoutOf(Cells(p.kids)) == Some(layout) && GoodCells(Cells(p.kids)) && GoodLinks(layout, rels)
    ensures ParagraphBlock(p, rels, number) == Kept(Print(PartsOf(layout, number)), number + |layout.links|)
  {
    hide LayoutOf, Cells, TextOf, Free, HasOwnAlternateContent, HasInteriorLayoutBreak, HasNestedHyperlink, HasText, GoodCells, Print, PrintFirst,
         ReadLinks, GoodTags, LinkId;
    CellsAreGood(Cells(p.kids));
    RelationshipsHold(layout, rels);
    var parts, n := PartsOf(layout, number), |layout.links|;
    ReadsFirst(layout, parts, rels, number, n);
    PrintWhole(parts);
  }

  /** A paragraph yields a block, with that text and link number, exactly if it can be edited. */
  lemma KeptIff(p: Para, rels: set<string>, number: nat, text: string, n: nat)
    ensures ParagraphBlock(p, rels, number) == Kept(text, n) <==> Yields(p, rels, number, text, n)
  {
    hide LayoutOf, Cells, Fields.Reads, GoodCells, Print, LinkId, TextOf, Free;
    if ParagraphBlock(p, rels, number) == Kept(text, n) {
      KeptSays(p, rels, number);
      var layout := LayoutOf(Cells(p.kids)).value;
      Fields.LayoutIffSentence(Cells(p.kids), layout);
      CellsAreGood(Cells(p.kids));
      KeptCells(p, rels, number);
      RelationshipsHold(layout, rels);
      KeptLinks(layout, rels, number);
      assert Yields(p, rels, number, text, n);
    }
    if Yields(p, rels, number, text, n) {
      var layout :| Fields.Reads(Cells(p.kids), layout) && GoodCells(Cells(p.kids)) && GoodLinks(layout, rels)
                    && text == Print(PartsOf(layout, number)) && n == number + |layout.links|;
      Fields.LayoutIffSentence(Cells(p.kids), layout);
      YieldedIsKept(p, rels, number, layout);
    }
  }

  lemma KeptCells(p: Para, rels: set<string>, number: nat)
    requires ParagraphBlock(p, rels, number).Kept?
    ensures var cs := Cells(p.kids); !HasOwnAlternateContent(cs) && !HasInteriorLayoutBreak(cs) && !HasNestedHyperlink(cs) && HasText(cs)
  {
    hide LayoutOf, Cells, TextOf, HasOwnAlternateContent, HasInteriorLayoutBreak, HasNestedHyperlink, HasText, ReadLinks, Reserved;
  }

  lemma KeptLinks(layout: Layout, rels: set<string>, number: nat)
    requires LayoutOk(layout) && GoodTags(layout, rels)
    requires forall i :: 0 <= i < |layout.links| ==> TextOf(layout.links[i].items) != ""
    requires var parts := PartsOf(layout, number);
             (forall i :: 0 <= i < |parts.plain| ==> Free(parts.plain[i])) && (forall i :: 0 <= i < |parts.links| ==> Free(parts.links[i].1))
    ensures GoodLinks(layout, rels)
  {
    hide TextOf, Free, LinkId, GoodTags;
    RelationshipsHold(layout, rels);
    var parts := PartsOf(layout, number);
    forall i | 0 <= i < |layout.plain|
      ensures Free(TextOf(layout.plain[i]))
    {
      assert parts.plain[i] == TextOf(layout.plain[i]);
    }
    forall i | 0 <= i < |layout.links|
      ensures Free(TextOf(layout.links[i].items))
    {
      assert parts.links[i].1 == TextOf(layout.links[i].items);
    }
  }

  /** A document is refused for a nested or broken hyperlink, or for token text in a readable paragraph. */
  lemma FailedSays(p: Para, rels: set<string>, number: nat)
    requires ParagraphBlock(p, rels, number).Failed?
    ensures var cs, code := Cells(p.kids), ParagraphBlock(p, rels, number).code;
            && LayoutOf(cs).Some? && LayoutOk(LayoutOf(cs).value)
            && var layout := LayoutOf(cs).value;
            || (code == "unsupported_docx_hyperlink" && (HasNestedHyperlink(cs) || !GoodTags(layout, rels)))
            || (code == "reserved_docx_text" && exists i :: 0 <= i < |layout.plain| && !Free(TextOf(layout.plain[i])))
            || (code == "reserved_docx_text" && exists i :: 0 <= i < |layout.links| && !Free(TextOf(layout.links[i].items)))
  {
    hide LayoutOf, Cells, TextOf, Free, HasOwnAlternateContent, HasInteriorLayoutBreak, HasNestedHyperlink, HasText, ReadLinks, GoodTags;
    var layout := LayoutOf(Cells(p.kids)).value;
    RefusedSays(layout, rels, number, |layout.links|);
  }

  lemma {:induction false} RefusedSays(layout: Layout, rels: set<string>, number: nat, k: nat)
    requires LayoutOk(layout) && k <= |layout.links|
    ensures var r := ReadLinks(layout, rels, number, k);
            r.Refused? ==>
            || (r.code == "unsupported_docx_hyperlink" && !GoodTags(layout, rels))
            || (r.code == "reserved_docx_text" && exists i :: 0 <= i < |layout.plain| && !Free(TextOf(layout.plain[i])))
            || (r.code == "reserved_docx_text" && exists i :: 0 <= i < |layout.links| && !Free(TextOf(layout.links[i].items)))
  {
    hide TextOf, Free, Token, LinkId, BrokenRelationship;
    if k > 0 {
      RefusedSays(layout, rels, number, k - 1);
    }
  }

  // ----- identifiers and whole documents -----

  /** A decimal number, read from the left. */
  function NumberOf(digits: string): int {
    if digits == "" then 0 else NumberOf(digits[..|digits| - 1]) * 10 + (digits[|digits| - 1] as int - '0' as int)
  }

  lemma {:induction false} DigitsValue(n: nat, width: nat)
    requires n < Pow10(width)
    ensures NumberOf(Digits(n, width)) == n
  {
    if width > 0 {
      DigitsValue(n / 10, width - 1);
      assert Digits(n, width)[..width - 1] == Digits(n / 10, width - 1);
    }
  }

  lemma {:induction false} DecimalValue(n: nat)
    ensures NumberOf(Decimal(n)) == n
  {
    if n < 10 {
      assert [Digit(n)][..0] == "";
    } else {
      DecimalValue(n / 10);
      assert Decimal(n)[..|Decimal(n)| - 1] == Decimal(n / 10);
    }
  }

  /** An identifier is a letter and its number in decimal, six digits wide below a million. */
  lemma IdentifierIsNumber(n: nat)
    ensures LinkId(n)[0] == 'l' && BlockId(n)[0] == 'p' && LinkId(n)[1..] == BlockId(n)[1..]
    ensures NumberOf(LinkId(n)[1..]) == n && (n < 1_000_000 ==> |LinkId(n)| == 7)
  {
    assert LinkId(n)[1..] == Padded(n) && BlockId(n)[1..] == Padded(n);
    if n < 1_000_000 {
      assert Pow10(6) == 1_000_000 by {
        assert Pow10(3) == 1_000;
      }
      DigitsValue(n, 6);
    } else {
      DecimalValue(n);
    }
  }

  /** The visible texts of the first `k` paragraphs that yield a block. */
  ghost function VisibleFirst(doc: seq<BodyPara>, rels: set<string>, k: nat): seq<string>
    requires k <= |doc|
  {
    if k == 0 then []
    else VisibleFirst(doc, rels, k - 1) + if IsKept(doc, rels, k - 1) then [VisibleText(OwnText.BelowAll(doc[k - 1].para.kids, []))] else []
  }

  /** The extracted blocks show the visible texts of their paragraphs, numbered in document order. */
  lemma {:induction false} BlocksShowOwnText(doc: seq<BodyPara>, rels: set<string>, k: nat)
    requires k <= |doc| && ExtractFirst(doc, rels, k).Ok? && ExtractFirst(doc, rels, k).value.number < 1_000_000
    ensures var blocks := ExtractFirst(doc, rels, k).value.blocks;
            && |blocks| == |VisibleFirst(doc, rels, k)|
            && forall j :: 0 <= j < |blocks| ==> PlainBlock(blocks[j].text) == VisibleFirst(doc, rels, k)[j] && blocks[j].id == BlockId(j + 1)
  {
    hide ParagraphBlock, PlainBlock, VisibleText, OwnText.BelowAll, BlockId;
    if k > 0 {
      NumberGrows(doc[k - 1].para, rels, ExtractFirst(doc, rels, k - 1).value.number);
      BlocksShowOwnText(doc, rels, k - 1);
      if IsKept(doc, rels, k - 1) {
        BlockShowsOwnText(doc[k - 1].para, rels, ExtractFirst(doc, rels, k - 1).value.number);
      }
    }
  }
}
