/**
 Re-extracting a rendered document: which documents and replacements give back exactly the replacement texts.
 */
module DocxRendering {
  import opened DocxLinks
  import opened DocxTree
  import opened DocxLayout
  import opened DocxPatch
  import opened DocxEdits
  import opened DocxRewrite
  import opened DocxDocument
  import opened DocxRoundTrip

  function WithTexts(blocks: seq<Block>, rs: seq<Replacement>): seq<Block>
    requires |blocks| <= |rs|
  {
    seq(|blocks|, i requires 0 <= i < |blocks| => blocks[i].(text := rs[i].text))
  }

  /**
   What parsing guarantees: elements are distinct, and there are fewer than a million links (a parsed tree has at
   most 300,000 elements).
   */
  ghost predicate Parsed(doc: seq<BodyPara>, rels: set<string>) {
    && (forall i :: 0 <= i < |doc| ==> Identified(doc[i].para))
    && (ExtractFirst(doc, rels, |doc|).Ok? ==> ExtractFirst(doc, rels, |doc|).value.number < 1_000_000)
  }

  /** The paragraph that yields a block reads back once the block's replacement is written into it. */
  ghost predicate ReadsBackAt(doc: seq<BodyPara>, rels: set<string>, rs: seq<Replacement>, i: nat)
    requires i < |doc|
  {
    var e := ExtractFirst(doc, rels, i);
    && e.Ok? && |e.value.blocks| < |rs| && Parse(rs[|e.value.blocks|].text).Some?
    && var cs, parts := Cells(doc[i].para.kids), Parse(rs[|e.value.blocks|].text).value;
    && Shaped(cs, parts) && ReadsBack(cs, parts)
  }

  ghost predicate AllReadBack(doc: seq<BodyPara>, rels: set<string>, rs: seq<Replacement>, k: nat)
    requires k <= |doc|
  {
    forall i :: 0 <= i < k && IsKept(doc, rels, i) ==> ReadsBackAt(doc, rels, rs, i)
  }

  /** Extraction of a longer prefix extends the blocks and numbers of a shorter one. */
  lemma {:induction false} ExtractGrows(doc: seq<BodyPara>, rels: set<string>, k: nat, end: nat)
    requires k <= end <= |doc| && ExtractFirst(doc, rels, end).Ok?
    ensures ExtractFirst(doc, rels, k).Ok?
    ensures ExtractFirst(doc, rels, k).value.blocks <= ExtractFirst(doc, rels, end).value.blocks
    ensures ExtractFirst(doc, rels, k).value.number <= ExtractFirst(doc, rels, end).value.number
    decreases end
  {
    hide ParagraphBlock, BlockId;
    if k < end {
      ExtractGrows(doc, rels, k, end - 1);
      var e := ExtractFirst(doc, rels, end - 1).value;
      NumberGrows(doc[end - 1].para, rels, e.number);
    }
  }

  lemma NumberGrows(p: Para, rels: set<string>, number: nat)
    ensures var r := ParagraphBlock(p, rels, number);
            (r.Kept? || r.Dropped?) ==> r.number >= number
  {
    hide Cells, TextOf, LayoutOf, Reserved, HasInteriorLayoutBreak, HasNestedHyperlink, HasOwnAlternateContent, HasText, ReadLinks;
    var layout := LayoutOf(Cells(p.kids));
    if layout.Some? {
      ReadNumberGrows(layout.value, rels, number, |layout.value.links|);
    }
  }

  lemma {:induction false} ReadNumberGrows(layout: Layout, rels: set<string>, number: nat, k: nat)
    requires LayoutOk(layout) && k <= |layout.links|
    ensures var r := ReadLinks(layout, rels, number, k);
            (r.Reading? || r.GaveUp?) ==> r.number >= number
  {
    hide TextOf, Reserved, BrokenRelationship, Token, LinkId;
    if k > 0 {
      ReadNumberGrows(layout, rels, number, k - 1);
    }
  }

  /** A valid replacement has the shape its paragraph needs. */
  lemma ValidIsGood(p: Para, rels: set<string>, number: nat, block: Block, r: Replacement)
    requires ParagraphBlock(p, rels, number).Kept? && ParagraphBlock(p, rels, number).number < 1_000_000
    requires block.text == ParagraphBlock(p, rels, number).text && CheckReplacement(block, r) == ""
    ensures GoodText(r.text, number, ParagraphBlock(p, rels, number).number - number)
  {
    hide Parse, ParagraphBlock, Cells, LayoutOf, Print, Free, TextOf, XmlLegal, IsDigits, LinkId, Distinct, GoodTags;
    KeptSays(p, rels, number);
    var layout := LayoutOf(Cells(p.kids)).value;
    var parts := PartsOf(layout, number);
    forall i | 0 <= i < |parts.links|
      ensures IsLinkId(parts.links[i].0)
    {
      LinkIdShape(number + 1 + i);
    }
    ParseOfPrint(parts);
    var actual := Parse(r.text).value;
    assert LinkIds(actual.links) == LinkIds(parts.links);
    assert |LinkIds(actual.links)| == |actual.links|;
    forall i | 0 <= i < |actual.links|
      ensures actual.links[i].0 == LinkId(number + 1 + i)
    {
      assert LinkIds(actual.links)[i] == LinkIds(parts.links)[i];
    }
  }

  /** The rendered prefix re-extracts to the template's blocks with the new texts, and the same numbers. */
  lemma NothingRendered(doc: seq<BodyPara>, rels: set<string>, rs: seq<Replacement>)
    ensures RenderFirst(doc, rels, rs, 0) == Ok([]) && ExtractFirst(doc, rels, 0) == Ok(Extraction([], 0))
    ensures WithTexts([], rs) == [] && ExtractFirst([], rels, 0) == Ok(Extraction([], 0))
  {
  }

  lemma {:induction false} RenderIsOk(doc: seq<BodyPara>, rels: set<string>, rs: seq<Replacement>, k: nat)
    requires k <= |doc| && RenderFirst(doc, rels, rs, |doc|).Ok?
    ensures RenderFirst(doc, rels, rs, k).Ok?
    decreases |doc| - k
  {
    hide ParagraphBlock, Patch, ExtractFirst;
    if k < |doc| {
      RenderIsOk(doc, rels, rs, k + 1);
    }
  }

  lemma RenderGrows(doc: seq<BodyPara>, rels: set<string>, rs: seq<Replacement>, k: nat)
    requires 0 < k <= |doc| && RenderFirst(doc, rels, rs, k).Ok?
    ensures RenderFirst(doc, rels, rs, k - 1).Ok?
    ensures |RenderFirst(doc, rels, rs, k).value| == k && |RenderFirst(doc, rels, rs, k - 1).value| == k - 1
    ensures RenderFirst(doc, rels, rs, k).value[..k - 1] == RenderFirst(doc, rels, rs, k - 1).value
  {
    hide ParagraphBlock, Patch, ExtractFirst;
    RenderLength(doc, rels, rs, k - 1);
  }

  lemma {:induction false} RenderLength(doc: seq<BodyPara>, rels: set<string>, rs: seq<Replacement>, k: nat)
    requires k <= |doc| && RenderFirst(doc, rels, rs, k).Ok?
    ensures |RenderFirst(doc, rels, rs, k).value| == k
  {
    hide ParagraphBlock, Patch, ExtractFirst;
    if k > 0 {
      RenderLength(doc, rels, rs, k - 1);
    }
  }

  lemma {:induction false} SamePrefix(a: seq<BodyPara>, b: seq<BodyPara>, rels: set<string>, k: nat)
    requires k <= |a| && k <= |b| && a[..k] == b[..k]
    ensures ExtractFirst(a, rels, k) == ExtractFirst(b, rels, k)
  {
    hide ParagraphBlock;
    if k > 0 {
      assert a[..k][..k - 1] == a[..k - 1] && b[..k][..k - 1] == b[..k - 1];
      assert a[k - 1] == a[..k][k - 1] && b[k - 1] == b[..k][k - 1];
      SamePrefix(a, b, rels, k - 1);
    }
  }

  lemma WithTextsSnoc(blocks: seq<Block>, block: Block, rs: seq<Replacement>)
    requires |blocks| < |rs|
    ensures WithTexts(blocks + [block], rs) == WithTexts(blocks, rs) + [block.(text := rs[|blocks|].text)]
  {
  }

  /** Unfolding of the extraction of both documents at paragraph `k`. */
  lemma StepOf(doc: seq<BodyPara>, rels: set<string>, rs: seq<Replacement>, k: nat)
    requires 0 < k <= |doc| && ExtractFirst(doc, rels, k).Ok?
    requires RenderFirst(doc, rels, rs, k).Ok? && |RenderFirst(doc, rels, rs, k).value| == k
    ensures ExtractFirst(doc, rels, k - 1).Ok?
    ensures var e, now := ExtractFirst(doc, rels, k - 1).value, RenderFirst(doc, rels, rs, k).value;
            var block := ParagraphBlock(doc[k - 1].para, rels, e.number);
            && (block.Dropped? ==> now[k - 1] == doc[k - 1] && ExtractFirst(doc, rels, k) == Ok(Extraction(e.blocks, block.number)))
            && (block.Kept? ==>
                  && |e.blocks| < MAX_DOCX_BLOCKS && |e.blocks| < |rs|
                  && Patch(doc[k - 1].para, rs[|e.blocks|].text) == Some(now[k - 1].para) && now[k - 1].inCell == doc[k - 1].inCell
                  && ExtractFirst(doc, rels, k) ==
                     Ok(Extraction(e.blocks + [Block(BlockId(|e.blocks| + 1), Kind(doc[k - 1].inCell), block.text)], block.number)))
            && (block.Kept? || block.Dropped?)
            && forall e' :: ExtractFirst(now, rels, k - 1) == Ok(e') ==>
                 ExtractFirst(now, rels, k) == match ParagraphBlock(now[k - 1].para, rels, e'.number)
                                               case Failed(code) => Err(code)
                                               case Dropped(n) => Ok(Extraction(e'.blocks, n))
                                               case Kept(text, n) => AddBlock(e', now[k - 1].inCell, text, n)
  {
    hide ParagraphBlock, Patch, BlockId, Kind;
    RenderLength(doc, rels, rs, k - 1);
  }

  lemma KeptExtends(doc: seq<BodyPara>, rels: set<string>, k: nat)
    requires 0 < k <= |doc| && ExtractFirst(doc, rels, k).Ok? && ExtractFirst(doc, rels, k - 1).Ok?
    requires ParagraphBlock(doc[k - 1].para, rels, ExtractFirst(doc, rels, k - 1).value.number).Kept?
    ensures var e, block := ExtractFirst(doc, rels, k - 1).value, ParagraphBlock(doc[k - 1].para, rels, ExtractFirst(doc, rels, k - 1).value.number);
            var now := ExtractFirst(doc, rels, k).value;
            |now.blocks| == |e.blocks| + 1 && now.blocks[|e.blocks|].text == block.text && now.number == block.number
  {
    hide ParagraphBlock, BlockId, Kind;
  }

  /** What writing the replacement into a kept paragraph gives. */
  lemma KeptTurnsInto(doc: seq<BodyPara>, rels: set<string>, rs: seq<Replacement>, i: nat)
    requires i < |doc| && Extract(doc, rels).Ok? && ValidReplacements(Extract(doc, rels).value, rs) && Parsed(doc, rels) && IsKept(doc, rels, i)
    ensures var e := ExtractFirst(doc, rels, i).value;
            && |e.blocks| < |rs| && Patch(doc[i].para, rs[|e.blocks|].text).Some?
            && var text, n := rs[|e.blocks|].text, ParagraphBlock(doc[i].para, rels, e.number).number;
            && var now := ParagraphBlock(Patch(doc[i].para, text).value, rels, e.number);
            && (ReadsBackAt(doc, rels, rs, i) ==> now == Kept(text, n))
            && (!ReadsBackAt(doc, rels, rs, i) ==> !now.Kept? || now.text != text)
  {
    hide ParagraphBlock, Patch, CheckReplacement, Identified, Parse, BlockId, Kind, ExtractFirst, Safe, Clear, Aligned, Survives, Shaped, Cells;
    ExtractGrows(doc, rels, i, |doc|);
    ExtractGrows(doc, rels, i + 1, |doc|);
    KeptExtends(doc, rels, i + 1);
    var p, e := doc[i].para, ExtractFirst(doc, rels, i).value;
    var blocks, j := Extract(doc, rels).value, |e.blocks|;
    assert ExtractFirst(doc, rels, i + 1).value.blocks[j] == blocks[j];
    ValidIsGood(p, rels, e.number, blocks[j], rs[j]);
    ParagraphRoundTrip(p, rels, e.number, rs[j].text);
  }

  /** No paragraph refuses its replacement. */
  lemma {:induction false} RendersFirst(doc: seq<BodyPara>, rels: set<string>, rs: seq<Replacement>, k: nat)
    requires k <= |doc| && Extract(doc, rels).Ok? && ValidReplacements(Extract(doc, rels).value, rs) && Parsed(doc, rels)
    ensures RenderFirst(doc, rels, rs, k).Ok?
  {
    hide ParagraphBlock, Patch, CheckReplacement, Identified, Parse, BlockId, Kind, ExtractFirst, ReadsBackAt, Parsed, ValidReplacements;
    if k > 0 {
      RendersFirst(doc, rels, rs, k - 1);
      ExtractGrows(doc, rels, k - 1, |doc|);
      if IsKept(doc, rels, k - 1) {
        KeptTurnsInto(doc, rels, rs, k - 1);
      }
    }
  }

  // ----- every replacement reads back -----

  lemma {:induction false} RenderedPrefix(doc: seq<BodyPara>, rels: set<string>, rs: seq<Replacement>, k: nat)
    requires k <= |doc| && Render(doc, rels, rs).Ok? && Parsed(doc, rels) && AllReadBack(doc, rels, rs, k)
    ensures RenderFirst(doc, rels, rs, k).Ok? && |RenderFirst(doc, rels, rs, k).value| == k
    ensures ExtractFirst(doc, rels, k).Ok? && |ExtractFirst(doc, rels, k).value.blocks| <= |rs|
    ensures var done, e := RenderFirst(doc, rels, rs, k).value, ExtractFirst(doc, rels, k).value;
            ExtractFirst(done, rels, k) == Ok(Extraction(WithTexts(e.blocks, rs), e.number))
  {
    hide ExtractFirst, RenderFirst, Parsed, ReadsBackAt, IsKept;
    ExtractGrows(doc, rels, k, |doc|);
    RenderIsOk(doc, rels, rs, k);
    if k > 0 {
      RenderedPrefix(doc, rels, rs, k - 1);
      RenderGrows(doc, rels, rs, k);
      SamePrefix(RenderFirst(doc, rels, rs, k).value, RenderFirst(doc, rels, rs, k - 1).value, rels, k - 1);
      RenderedStep(doc, rels, rs, k);
    } else {
      NothingRendered(doc, rels, rs);
    }
  }

  /** One paragraph: a dropped one is untouched, a kept one reads back as its replacement. */
  lemma RenderedStep(doc: seq<BodyPara>, rels: set<string>, rs: seq<Replacement>, k: nat)
    requires 0 < k <= |doc| && Render(doc, rels, rs).Ok? && Parsed(doc, rels) && AllReadBack(doc, rels, rs, k)
    requires ExtractFirst(doc, rels, k).Ok? && |ExtractFirst(doc, rels, k).value.blocks| <= |rs|
    requires RenderFirst(doc, rels, rs, k).Ok? && |RenderFirst(doc, rels, rs, k).value| == k
    requires ExtractFirst(doc, rels, k - 1).Ok?
    requires var now, e := RenderFirst(doc, rels, rs, k).value, ExtractFirst(doc, rels, k - 1).value;
             |e.blocks| <= |rs| && ExtractFirst(now, rels, k - 1) == Ok(Extraction(WithTexts(e.blocks, rs), e.number))
    ensures var now, e := RenderFirst(doc, rels, rs, k).value, ExtractFirst(doc, rels, k).value;
            ExtractFirst(now, rels, k) == Ok(Extraction(WithTexts(e.blocks, rs), e.number))
  {
    hide ParagraphBlock, Patch, BlockId, Kind, ExtractFirst, RenderFirst, ReadsBackAt, Parsed, ValidReplacements;
    StepOf(doc, rels, rs, k);
    var e := ExtractFirst(doc, rels, k - 1).value;
    if ParagraphBlock(doc[k - 1].para, rels, e.number).Kept? {
      KeptTurnsInto(doc, rels, rs, k - 1);
      WithTextsSnoc(e.blocks, ExtractFirst(doc, rels, k).value.blocks[|e.blocks|], rs);
    }
  }

  // ----- some replacement does not -----

  /** Whether a paragraph yields a block does not depend on the number of links before it. */
  lemma KeptIsNumberFree(p: Para, rels: set<string>, a: nat, b: nat)
    ensures ParagraphBlock(p, rels, a).Kept? <==> ParagraphBlock(p, rels, b).Kept?
  {
    hide Cells, LayoutOf, TextOf, Reserved, HasText, HasOwnAlternateContent, HasInteriorLayoutBreak, HasNestedHyperlink, ReadLinks;
    var layout := LayoutOf(Cells(p.kids));
    if layout.Some? {
      ReadsNumberFree(layout.value, rels, a, b, |layout.value.links|);
    }
  }

  lemma {:induction false} ReadsNumberFree(layout: Layout, rels: set<string>, a: nat, b: nat, k: nat)
    requires LayoutOk(layout) && k <= |layout.links|
    ensures ReadLinks(layout, rels, a, k).Reading? <==> ReadLinks(layout, rels, b, k).Reading?
  {
    hide TextOf, Reserved, BrokenRelationship, Token, LinkId;
    if k > 0 {
      ReadsNumberFree(layout, rels, a, b, k - 1);
    }
  }

  /** From paragraph `k` on, the rendered document yields at most as many blocks as the template. */
  lemma {:induction false} NoMoreBlocks(doc: seq<BodyPara>, now: seq<BodyPara>, rels: set<string>, rs: seq<Replacement>, k: nat, end: nat)
    requires Render(doc, rels, rs) == Ok(now) && |now| == |doc| && k <= end <= |doc|
    requires ExtractFirst(doc, rels, end).Ok? && ExtractFirst(now, rels, end).Ok?
    ensures ExtractFirst(doc, rels, k).Ok? && ExtractFirst(now, rels, k).Ok?
    ensures |ExtractFirst(now, rels, end).value.blocks| - |ExtractFirst(now, rels, k).value.blocks|
         <= |ExtractFirst(doc, rels, end).value.blocks| - |ExtractFirst(doc, rels, k).value.blocks|
    decreases end
  {
    hide ParagraphBlock, Patch, BlockId, Kind, RenderFirst, ValidReplacements;
    if k < end {
      NoMoreBlocks(doc, now, rels, rs, k, end - 1);
      var a, b := ExtractFirst(doc, rels, end - 1).value.number, ExtractFirst(now, rels, end - 1).value.number;
      RenderKeepsPrefix(doc, rels, rs, end);
      StepOf(doc, rels, rs, end);
      assert now[..end][end - 1] == now[end - 1];
      if !ParagraphBlock(doc[end - 1].para, rels, a).Kept? {
        KeptIsNumberFree(doc[end - 1].para, rels, a, b);
      }
    }
  }

  lemma {:induction false} RenderKeepsPrefix(doc: seq<BodyPara>, rels: set<string>, rs: seq<Replacement>, k: nat)
    requires k <= |doc| && RenderFirst(doc, rels, rs, |doc|).Ok?
    ensures RenderFirst(doc, rels, rs, k).Ok? && |RenderFirst(doc, rels, rs, k).value| == k
    ensures |RenderFirst(doc, rels, rs, |doc|).value| == |doc|
    ensures RenderFirst(doc, rels, rs, |doc|).value[..k] == RenderFirst(doc, rels, rs, k).value
    decreases |doc| - k
  {
    hide RenderFirst;
    RenderIsOk(doc, rels, rs, k);
    RenderLength(doc, rels, rs, k);
    RenderLength(doc, rels, rs, |doc|);
    if k < |doc| {
      RenderKeepsPrefix(doc, rels, rs, k + 1);
      RenderGrows(doc, rels, rs, k + 1);
      var all := RenderFirst(doc, rels, rs, |doc|).value;
      assert all[..k + 1][..k] == all[..k];
    }
  }

  lemma {:induction false} FirstFailure(doc: seq<BodyPara>, rels: set<string>, rs: seq<Replacement>, k: nat) returns (i: nat)
    requires k <= |doc| && !AllReadBack(doc, rels, rs, k)
    ensures i < k && IsKept(doc, rels, i) && !ReadsBackAt(doc, rels, rs, i) && AllReadBack(doc, rels, rs, i)
  {
    hide IsKept, ReadsBackAt;
    if AllReadBack(doc, rels, rs, k - 1) {
      i := k - 1;
    } else {
      i := FirstFailure(doc, rels, rs, k - 1);
    }
  }

  /** The first replacement that does not read back leaves a block with another text, or no block. */
  lemma FailureShows(doc: seq<BodyPara>, rels: set<string>, rs: seq<Replacement>)
    requires Render(doc, rels, rs).Ok? && Parsed(doc, rels) && !AllReadBack(doc, rels, rs, |doc|)
    ensures |Extract(doc, rels).value| == |rs|
    ensures Extract(Render(doc, rels, rs).value, rels) != Ok(WithTexts(Extract(doc, rels).value, rs))
  {
    hide ParagraphBlock, Patch, BlockId, Kind, ExtractFirst, RenderFirst, ReadsBackAt, Parsed, CheckReplacement, IsKept;
    var now, end := Render(doc, rels, rs).value, |doc|;
    var i := FirstFailure(doc, rels, rs, end);
    RenderKeepsPrefix(doc, rels, rs, end);
    RenderedPrefix(doc, rels, rs, i);
    RenderKeepsPrefix(doc, rels, rs, i);
    SamePrefix(now, RenderFirst(doc, rels, rs, i).value, rels, i);
    if ExtractFirst(now, rels, end).Ok? {
      ExtractGrows(now, rels, i + 1, end);
      ExtractGrows(doc, rels, i + 1, end);
      NoMoreBlocks(doc, now, rels, rs, i + 1, end);
      FailureStep(doc, now, rels, rs, i);
    }
  }

  lemma FailureStep(doc: seq<BodyPara>, now: seq<BodyPara>, rels: set<string>, rs: seq<Replacement>, i: nat)
    requires Render(doc, rels, rs) == Ok(now) && |now| == |doc| && Parsed(doc, rels) && i < |doc|
    requires IsKept(doc, rels, i) && !ReadsBackAt(doc, rels, rs, i)
    requires ExtractFirst(doc, rels, i + 1).Ok? && ExtractFirst(now, rels, i + 1).Ok?
    requires var e := ExtractFirst(doc, rels, i).value;
             |e.blocks| <= |rs| && ExtractFirst(now, rels, i) == Ok(Extraction(WithTexts(e.blocks, rs), e.number))
    ensures var j, blocks := |ExtractFirst(doc, rels, i).value.blocks|, ExtractFirst(now, rels, i + 1).value.blocks;
            && j < |rs| && |ExtractFirst(doc, rels, i + 1).value.blocks| == j + 1
            && (|blocks| == j || (|blocks| == j + 1 && blocks[j].text != rs[j].text))
  {
    hide ParagraphBlock, Patch, BlockId, Kind, RenderFirst, ReadsBackAt, Parsed, ValidReplacements;
    KeptTurnsInto(doc, rels, rs, i);
    RenderKeepsPrefix(doc, rels, rs, i + 1);
    StepOf(doc, rels, rs, i + 1);
    assert now[..i + 1][i] == now[i];
  }

  /**
   The round trip: valid replacements can always be rendered into their template, and extracting the result gives
   the same block identifiers and kinds with exactly the replacement texts if and only if every edited paragraph
   reads back: no special character is written outside a run, no text below AlternateContent or on both sides of a
   page or column break, and some text node is left.
   */
  lemma ExtractAfterRender(doc: seq<BodyPara>, rels: set<string>, rs: seq<Replacement>)
    requires Extract(doc, rels).Ok? && ValidReplacements(Extract(doc, rels).value, rs) && Parsed(doc, rels)
    ensures Render(doc, rels, rs).Ok? && |rs| == |Extract(doc, rels).value|
    ensures Extract(Render(doc, rels, rs).value, rels) == Ok(WithTexts(Extract(doc, rels).value, rs))
            <==> AllReadBack(doc, rels, rs, |doc|)
    ensures BlockTexts(WithTexts(Extract(doc, rels).value, rs)) == ReplacementTexts(rs)
  {
    hide ExtractFirst, RenderFirst, Parsed, AllReadBack, CheckReplacement;
    RendersFirst(doc, rels, rs, |doc|);
    if AllReadBack(doc, rels, rs, |doc|) {
      RenderedPrefix(doc, rels, rs, |doc|);
    } else {
      FailureShows(doc, rels, rs);
    }
  }
}
