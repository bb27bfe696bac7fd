/**
 Extraction and rendering of a document (`_paragraph_block`, `_parse_package`, `validate_replacements`,
 `docx_blocks_from_storage` and `render_docx`, src/oveo/docx.py), from its body paragraphs in order.
 */
module DocxDocument {
  import opened DocxLinks
  import opened DocxTree
  import opened DocxLayout
  import opened DocxPatch

  datatype Result<+T> = Ok(value: T) | Err(code: string)

  datatype BodyPara = BodyPara(para: Para, inCell: bool)

  datatype Block = Block(id: string, kind: string, text: string)

  datatype Replacement = Replacement(id: string, text: string)

  const MAX_DOCX_BLOCKS := 10_000

  // ----- one paragraph -----

  predicate HasOwnAlternateContent(cs: seq<Cell>) {
    exists i :: 0 <= i < |cs| && cs[i].Found? && cs[i].leaf.Text? && cs[i].place.alternate
  }

  predicate Shows(c: Cell) {
    IsInline(c) && ItemText(c) != ""
  }

  /** A page or column break between two pieces of the paragraph's text. */
  predicate HasInteriorLayoutBreak(cs: seq<Cell>) {
    exists i, j, k :: 0 <= i < j < k < |cs| && Shows(cs[i]) && IsBreak(cs[j]) && Shows(cs[k])
  }

  /** The two-flag scan of `_has_interior_layout_break`. */
  method ScanLayoutBreaks(cs: seq<Cell>) returns (interior: bool)
    ensures interior == HasInteriorLayoutBreak(cs)
  {
    hide IsInline, ItemText, IsBreak;
    var textSeen, breakAfterText := false, false;
    ghost var first, brk := 0, 0;
    for n := 0 to |cs|
      invariant !textSeen ==> forall i :: 0 <= i < n ==> !Shows(cs[i])
      invariant textSeen ==> 0 <= first < n && Shows(cs[first])
      invariant breakAfterText ==> 0 <= first < brk < n && Shows(cs[first]) && IsBreak(cs[brk])
      invariant !breakAfterText ==> forall i, j :: 0 <= i < j < n && Shows(cs[i]) ==> !IsBreak(cs[j])
      invariant forall i, j, k :: 0 <= i < j < k < n && Shows(cs[i]) && IsBreak(cs[j]) ==> !Shows(cs[k])
    {
      BreakShowsNothing(cs[n]);
      if IsBreak(cs[n]) {
        if textSeen && !breakAfterText {
          brk := n;
        }
        breakAfterText := breakAfterText || textSeen;
      } else if Shows(cs[n]) {
        if breakAfterText {
          return true;
        }
        if !textSeen {
          first := n;
        }
        textSeen := true;
      }
    }
    return false;
  }

  lemma BreakShowsNothing(c: Cell)
    ensures IsBreak(c) ==> !Shows(c)
  {
  }

  predicate HasNestedHyperlink(cs: seq<Cell>) {
    exists i :: 0 <= i < |cs| && cs[i].Nested? && cs[i].tag.Hyperlink?
  }

  predicate HasText(cs: seq<Cell>) {
    exists i :: 0 <= i < |cs| && cs[i].Found? && cs[i].leaf.Text? && cs[i].leaf.value != ""
  }

  predicate BrokenRelationship(tag: Option<Tag>, rels: set<string>) {
    tag.Some? && tag.value.Hyperlink? && tag.value.rel.Some? && tag.value.rel.value !in rels
  }

  /** The text read so far and the last link number used, or why reading stopped. */
  datatype Reading =
    | Reading(text: string, number: nat)
    | GaveUp(number: nat)
    | Refused(code: string)

  function ReadLink(r: Reading, before: string, display: string, tag: Option<Tag>, rels: set<string>): Reading {
    if !r.Reading? then r
    else if Reserved(before) then Refused("reserved_docx_text")
    else if display == "" then GaveUp(r.number)
    else if Reserved(display) then Refused("reserved_docx_text")
    else if BrokenRelationship(tag, rels) then Refused("unsupported_docx_hyperlink")
    else Reading(r.text + before + Token((LinkId(r.number + 1), display)), r.number + 1)
  }

  /** The first `k` links of a layout, numbered from `number + 1`. */
  ghost function ReadLinks(layout: Layout, rels: set<string>, number: nat, k: nat): Reading
    requires LayoutOk(layout) && k <= |layout.links|
  {
    if k == 0 then Reading("", number)
    else ReadLink(ReadLinks(layout, rels, number, k - 1), TextOf(layout.plain[k - 1]), TextOf(layout.links[k - 1].items),
                  layout.links[k - 1].anchor.tag, rels)
  }

  datatype Outcome =
    | Dropped(number: nat)
    | Kept(text: string, number: nat)
    | Failed(code: string)

  /** `_paragraph_block`: the block text, or no block, and the advanced link number. */
  ghost function ParagraphBlock(p: Para, rels: set<string>, number: nat): Outcome {
    var cs := Cells(p.kids);
    match LayoutOf(cs)
    case None => Dropped(number)
    case Some(layout) =>
      if HasOwnAlternateContent(cs) || HasInteriorLayoutBreak(cs) then Dropped(number)
      else if HasNestedHyperlink(cs) then Failed("unsupported_docx_hyperlink")
      else match ReadLinks(layout, rels, number, |layout.links|)
        case Refused(code) => Failed(code)
        case GaveUp(n) => Dropped(n)
        case Reading(text, n) =>
          var tail := TextOf(layout.plain[|layout.links|]);
          if Reserved(tail) then Failed("reserved_docx_text")
          else if !HasText(cs) then Dropped(n)
          else Kept(text + tail, n)
  }

  method ReadParagraph(p: Para, rels: set<string>, number: nat) returns (r: Outcome)
    ensures r == ParagraphBlock(p, rels, number)
  {
    hide LayoutOf, Cells, TextOf, Reserved, ReadLink;
    var cs := Cells(p.kids);
    var found := ParagraphLayout(p.kids);
    if found.None? {
      return Dropped(number);
    }
    var layout := found.value;
    if HasOwnAlternateContent(cs) {
      return Dropped(number);
    }
    var interior := ScanLayoutBreaks(cs);
    if interior {
      return Dropped(number);
    }
    if HasNestedHyperlink(cs) {
      return Failed("unsupported_docx_hyperlink");
    }
    var reading := Reading("", number);
    for i := 0 to |layout.links|
      invariant reading == ReadLinks(layout, rels, number, i) && reading.Reading?
    {
      reading := ReadLink(reading, TextOf(layout.plain[i]), TextOf(layout.links[i].items), layout.links[i].anchor.tag, rels);
      if !reading.Reading? {
        ReadingStops(layout, rels, number, i + 1, |layout.links|);
        return if reading.GaveUp? then Dropped(reading.number) else Failed(reading.code);
      }
    }
    var tail := TextOf(layout.plain[|layout.links|]);
    if Reserved(tail) {
      return Failed("reserved_docx_text");
    }
    if !HasText(cs) {
      return Dropped(reading.number);
    }
    return Kept(reading.text + tail, reading.number);
  }

  lemma {:induction false} ReadingStops(layout: Layout, rels: set<string>, number: nat, k: nat, end: nat)
    requires LayoutOk(layout) && k <= end <= |layout.links| && !ReadLinks(layout, rels, number, k).Reading?
    ensures ReadLinks(layout, rels, number, end) == ReadLinks(layout, rels, number, k)
    decreases end
  {
    hide TextOf, Reserved, BrokenRelationship, Token, LinkId;
    if k < end {
      ReadingStops(layout, rels, number, k, end - 1);
    }
  }

  // ----- all paragraphs -----

  /** The blocks found so far and the last link number used. */
  datatype Extraction = Extraction(blocks: seq<Block>, number: nat)

  function Kind(inCell: bool): string {
    if inCell then "table_cell" else "paragraph"
  }

  function AddBlock(e: Extraction, inCell: bool, text: string, number: nat): Result<Extraction> {
    var block := Block(BlockId(|e.blocks| + 1), Kind(inCell), text);
    if |e.blocks| + 1 > MAX_DOCX_BLOCKS then Err("docx_too_complex")
    else Ok(Extraction(e.blocks + [block], number))
  }

  /** The first `k` paragraphs of `_parse_package`. */
  ghost function ExtractFirst(doc: seq<BodyPara>, rels: set<string>, k: nat): Result<Extraction>
    requires k <= |doc|
  {
    if k == 0 then Ok(Extraction([], 0))
    else match ExtractFirst(doc, rels, k - 1)
      case Err(code) => Err(code)
      case Ok(e) =>
        match ParagraphBlock(doc[k - 1].para, rels, e.number)
        case Failed(code) => Err(code)
        case Dropped(n) => Ok(Extraction(e.blocks, n))
        case Kept(text, n) => AddBlock(e, doc[k - 1].inCell, text, n)
  }

  ghost function Extract(doc: seq<BodyPara>, rels: set<string>): Result<seq<Block>> {
    match ExtractFirst(doc, rels, |doc|)
    case Err(code) => Err(code)
    case Ok(e) => if e.blocks == [] then Err("empty_docx") else Ok(e.blocks)
  }

  // ----- replacement validation -----

  /** Characters XML 1.0 cannot hold. */
  predicate XmlLegal(c: char) {
    c == '\t' || c == '\n' || c == '\r' || '\U{0020}' <= c <= '\U{d7ff}' || '\U{e000}' <= c <= '\U{fffd}' || '\U{10000}' <= c
  }

  predicate IsBlockId(id: string) {
    |id| == 7 && id[0] == 'p' && IsDigits(id[1..])
  }

  function LinkIds(links: seq<(string, string)>): seq<string> {
    seq(|links|, i requires 0 <= i < |links| => links[i].0)
  }

  predicate Distinct(s: seq<string>) {
    forall i, j :: 0 <= i < j < |s| ==> s[i] != s[j]
  }

  /** The checks of `validate_replacements` on one block, in order; "" when all pass. */
  ghost function CheckReplacement(block: Block, r: Replacement): string {
    if !IsBlockId(r.id) || r.id != block.id then "invalid_docx_blocks"
    else if exists i :: 0 <= i < |r.text| && !XmlLegal(r.text[i]) then "invalid_docx_text"
    else match (Parse(block.text), Parse(r.text))
      case (Some(expected), Some(actual)) =>
        if LinkIds(actual.links) != LinkIds(expected.links) || !Distinct(LinkIds(actual.links))
           || exists i :: 0 <= i < |actual.links| && actual.links[i].1 == ""
        then "invalid_docx_hyperlinks" else ""
      case (_, _) => "invalid_docx_blocks"
  }

  ghost predicate ValidReplacements(blocks: seq<Block>, rs: seq<Replacement>) {
    |rs| == |blocks| && forall i :: 0 <= i < |rs| ==> CheckReplacement(blocks[i], rs[i]) == ""
  }

  /** The first failing check among the first `k` blocks; "" when all pass. */
  ghost function FirstError(blocks: seq<Block>, rs: seq<Replacement>, k: nat): (code: string)
    requires k <= |blocks| == |rs|
    ensures code == "" <==> forall i :: 0 <= i < k ==> CheckReplacement(blocks[i], rs[i]) == ""
  {
    if k == 0 then ""
    else
      var before := FirstError(blocks, rs, k - 1);
      if before != "" then before else CheckReplacement(blocks[k - 1], rs[k - 1])
  }

  /** The error that `validate_replacements` raises; "" when it accepts. */
  ghost function ReplacementError(blocks: seq<Block>, rs: seq<Replacement>): (code: string)
    ensures code == "" <==> ValidReplacements(blocks, rs)
  {
    if |rs| != |blocks| then "invalid_docx_blocks" else FirstError(blocks, rs, |rs|)
  }

  // ----- rendering -----

  /** The first `k` paragraphs patched, with the extraction that says which block each one is. */
  ghost function RenderFirst(doc: seq<BodyPara>, rels: set<string>, rs: seq<Replacement>, k: nat): Result<seq<BodyPara>>
    requires k <= |doc|
  {
    if k == 0 then Ok([])
    else match RenderFirst(doc, rels, rs, k - 1)
      case Err(code) => Err(code)
      case Ok(done) =>
        match ExtractFirst(doc, rels, k - 1)
        case Err(code) => Err(code)
        case Ok(e) =>
          if ParagraphBlock(doc[k - 1].para, rels, e.number).Kept? then
            if |e.blocks| >= |rs| then Err("invalid_docx_blocks")
            else match Patch(doc[k - 1].para, rs[|e.blocks|].text)
              case None => Err("invalid_docx_blocks")
              case Some(p) => Ok(done + [BodyPara(p, doc[k - 1].inCell)])
          else Ok(done + [doc[k - 1]])
  }

  /** `render_docx` from the parsed template on. */
  ghost function Render(doc: seq<BodyPara>, rels: set<string>, rs: seq<Replacement>): Result<seq<BodyPara>> {
    match Extract(doc, rels)
    case Err(code) => Err(code)
    case Ok(blocks) =>
      if !ValidReplacements(blocks, rs) then Err(ReplacementError(blocks, rs)) else RenderFirst(doc, rels, rs, |doc|)
  }

  /** The loop of `_parse_package`: the blocks, and for each the paragraph it was read from. */
  method ParseBody(doc: seq<BodyPara>, rels: set<string>) returns (r: Result<seq<Block>>, editable: seq<nat>)
    ensures r == Extract(doc, rels)
    ensures r.Ok? ==> |editable| == |r.value| && Editable(doc, rels, editable, |doc|)
  {
    hide ParagraphBlock, BlockId, Kind;
    editable := [];
    var blocks: seq<Block> := [];
    var number := 0;
    for k := 0 to |doc|
      invariant ExtractFirst(doc, rels, k) == Ok(Extraction(blocks, number))
      invariant |editable| == |blocks| && Editable(doc, rels, editable, k)
    {
      var one := ReadParagraph(doc[k].para, rels, number);
      if one.Failed? {
        ErrorStays(doc, rels, k + 1, |doc|);
        return Err(one.code), [];
      }
      number := one.number;
      if one.Kept? {
        blocks := blocks + [Block(BlockId(|blocks| + 1), Kind(doc[k].inCell), one.text)];
        editable := editable + [k];
        if |blocks| > MAX_DOCX_BLOCKS {
          ErrorStays(doc, rels, k + 1, |doc|);
          return Err("docx_too_complex"), [];
        }
      }
    }
    return if blocks == [] then Err("empty_docx") else Ok(blocks), editable;
  }

  lemma {:induction false} ErrorStays(doc: seq<BodyPara>, rels: set<string>, k: nat, end: nat)
    requires k <= end <= |doc| && ExtractFirst(doc, rels, k).Err?
    ensures ExtractFirst(doc, rels, end) == ExtractFirst(doc, rels, k)
    decreases end
  {
    hide ParagraphBlock;
    if k < end {
      ErrorStays(doc, rels, k, end - 1);
    }
  }

  ghost predicate IsKept(doc: seq<BodyPara>, rels: set<string>, i: nat)
    requires i < |doc|
  {
    && ExtractFirst(doc, rels, i).Ok?
    && ParagraphBlock(doc[i].para, rels, ExtractFirst(doc, rels, i).value.number).Kept?
  }

  /** `editable` lists, in order, the paragraphs among the first `k` that yield a block. */
  ghost predicate Editable(doc: seq<BodyPara>, rels: set<string>, editable: seq<nat>, k: nat)
    requires k <= |doc|
  {
    && (forall j :: 0 <= j < |editable| ==> editable[j] < k && IsKept(doc, rels, editable[j])
                                            && |ExtractFirst(doc, rels, editable[j]).value.blocks| == j)
    && (forall i, j :: 0 <= i < j < |editable| ==> editable[i] < editable[j])
    && (forall i :: 0 <= i < k && IsKept(doc, rels, i) ==> i in editable)
  }

  method ValidateReplacements(blocks: seq<Block>, rs: seq<Replacement>) returns (code: string)
    ensures code == ReplacementError(blocks, rs)
    ensures code == "" ==> |rs| == |blocks|
  {
    hide CheckReplacement;
    if |rs| != |blocks| {
      return "invalid_docx_blocks";
    }
    for k := 0 to |rs|
      invariant FirstError(blocks, rs, k) == ""
    {
      var failure := CheckOne(blocks[k], rs[k]);
      if failure != "" {
        FirstErrorStays(blocks, rs, k + 1, |rs|);
        return failure;
      }
    }
    return "";
  }

  lemma {:induction false} FirstErrorStays(blocks: seq<Block>, rs: seq<Replacement>, k: nat, end: nat)
    requires k <= end <= |blocks| == |rs| && FirstError(blocks, rs, k) != ""
    ensures FirstError(blocks, rs, end) == FirstError(blocks, rs, k)
    decreases end
  {
    hide CheckReplacement;
    if k < end {
      FirstErrorStays(blocks, rs, k, end - 1);
    }
  }

  method CheckOne(block: Block, r: Replacement) returns (code: string)
    ensures code == CheckReplacement(block, r)
  {
    hide Parse, XmlLegal, IsBlockId;
    if !IsBlockId(r.id) || r.id != block.id {
      return "invalid_docx_blocks";
    }
    if exists i :: 0 <= i < |r.text| && !XmlLegal(r.text[i]) {
      return "invalid_docx_text";
    }
    var expected := LinkParts(block.text);
    var actual := LinkParts(r.text);
    if expected.None? || actual.None? {
      return "invalid_docx_blocks";
    }
    var links := actual.value.links;
    if LinkIds(links) != LinkIds(expected.value.links) || !Distinct(LinkIds(links))
       || exists i :: 0 <= i < |links| && links[i].1 == ""
    {
      return "invalid_docx_hyperlinks";
    }
    return "";
  }

  lemma UntouchedTail(out: seq<BodyPara>, doc: seq<BodyPara>, k: nat, i: nat)
    requires |out| == |doc| && k <= i <= |doc| && out[k..] == doc[k..]
    ensures out[..i] == out[..k] + doc[k..i] && out[i..] == doc[i..]
  {
    assert out[k..][..i - k] == doc[k..][..i - k] && out[k..][i - k..] == doc[k..][i - k..];
    assert out[k..][..i - k] == out[k..i] && doc[k..][..i - k] == doc[k..i];
    assert out[k..][i - k..] == out[i..] && doc[k..][i - k..] == doc[i..];
  }

  lemma PatchedOne(out: seq<BodyPara>, doc: seq<BodyPara>, i: nat, x: BodyPara)
    requires |out| == |doc| && i < |doc| && out[i..] == doc[i..]
    ensures out[i := x][..i + 1] == out[..i] + [x] && out[i := x][i + 1..] == doc[i + 1..]
  {
    assert out[i..][1..] == doc[i..][1..];
    assert out[i..][1..] == out[i + 1..] && doc[i..][1..] == doc[i + 1..];
  }

  lemma RenderNothing(doc: seq<BodyPara>, rels: set<string>, rs: seq<Replacement>)
    ensures RenderFirst(doc, rels, rs, 0) == Ok([])
  {
  }

  /** Paragraphs between two editable ones stay as they are. */
  lemma {:induction false} SkipsUntouched(doc: seq<BodyPara>, rels: set<string>, rs: seq<Replacement>, editable: seq<nat>, j: nat, k: nat, i: nat)
    requires ExtractFirst(doc, rels, |doc|).Ok? && Editable(doc, rels, editable, |doc|)
    requires j <= |editable| && k == (if j == 0 then 0 else editable[j - 1] + 1) <= i <= (if j < |editable| then editable[j] else |doc|)
    requires RenderFirst(doc, rels, rs, k).Ok?
    ensures RenderFirst(doc, rels, rs, i) == Ok(RenderFirst(doc, rels, rs, k).value + doc[k..i])
    decreases i
  {
    hide ParagraphBlock, Patch, ExtractFirst;
    if k < i {
      SkipsUntouched(doc, rels, rs, editable, j, k, i - 1);
      PrefixIsOk(doc, rels, i - 1, |doc|);
      NotEditable(doc, rels, editable, j, i - 1);
      assert doc[k..i] == doc[k..i - 1] + [doc[i - 1]];
      assert RenderFirst(doc, rels, rs, i) == Ok(RenderFirst(doc, rels, rs, i - 1).value + [doc[i - 1]]);
      var done := RenderFirst(doc, rels, rs, k).value;
      assert (done + doc[k..i - 1]) + [doc[i - 1]] == done + doc[k..i];
    } else {
      assert RenderFirst(doc, rels, rs, k).value + doc[k..i] == RenderFirst(doc, rels, rs, k).value;
    }
  }

  lemma NotEditable(doc: seq<BodyPara>, rels: set<string>, editable: seq<nat>, j: nat, i: nat)
    requires Editable(doc, rels, editable, |doc|) && j <= |editable| && i < |doc|
    requires (if j == 0 then 0 else editable[j - 1] + 1) <= i && (j < |editable| ==> i < editable[j])
    ensures !IsKept(doc, rels, i)
  {
    hide IsKept, ExtractFirst;
    forall n | 0 <= n < |editable|
      ensures editable[n] != i
    {
      assert n < j ==> editable[n] <= editable[j - 1];
      assert n >= j ==> editable[j] <= editable[n];
    }
  }

  lemma {:induction false} PrefixIsOk(doc: seq<BodyPara>, rels: set<string>, k: nat, end: nat)
    requires k <= end <= |doc| && ExtractFirst(doc, rels, end).Ok?
    ensures ExtractFirst(doc, rels, k).Ok?
    decreases end
  {
    hide ParagraphBlock;
    if k < end {
      PrefixIsOk(doc, rels, k, end - 1);
    }
  }

  lemma RenderAt(doc: seq<BodyPara>, rels: set<string>, rs: seq<Replacement>, i: nat, j: nat)
    requires i < |doc| && RenderFirst(doc, rels, rs, i).Ok? && IsKept(doc, rels, i)
    requires |ExtractFirst(doc, rels, i).value.blocks| == j < |rs|
    ensures var p := Patch(doc[i].para, rs[j].text);
            RenderFirst(doc, rels, rs, i + 1)
            == if p.None? then Err("invalid_docx_blocks")
               else Ok(RenderFirst(doc, rels, rs, i).value + [BodyPara(p.value, doc[i].inCell)])
  {
    hide ParagraphBlock, Patch, ExtractFirst;
  }

  lemma {:induction false} RenderErrorStays(doc: seq<BodyPara>, rels: set<string>, rs: seq<Replacement>, k: nat, end: nat)
    requires k <= end <= |doc| && RenderFirst(doc, rels, rs, k).Err?
    ensures RenderFirst(doc, rels, rs, end) == RenderFirst(doc, rels, rs, k)
    decreases end
  {
    hide ParagraphBlock, Patch, ExtractFirst;
    if k < end {
      RenderErrorStays(doc, rels, rs, k, end - 1);
    }
  }

  // ----- clean plain text -----

  /** Block text without its link tokens. */
  function PlainParts(p: Parts): string
    requires |p.plain| == |p.links| + 1
    decreases |p.links|
  {
    if p.links == [] then p.plain[0]
    else p.plain[0] + p.links[0].1 + PlainParts(Parts(p.plain[1..], p.links[1..]))
  }

  ghost function PlainBlock(text: string): string {
    match Parse(text)
    case None => ""
    case Some(p) => PlainParts(p)
  }

  /** `_plain_text_from_validated`: paragraphs joined by blank lines. */
  ghost function PlainText(texts: seq<string>): string {
    if texts == [] then ""
    else if |texts| == 1 then PlainBlock(texts[0])
    else PlainText(texts[..|texts| - 1]) + "\n\n" + PlainBlock(texts[|texts| - 1])
  }

  /** `_plain_text_from_validated` on link parts of each text. */
  method PlainTextOf(texts: seq<string>) returns (joined: string)
    ensures joined == PlainText(texts)
  {
    hide Parse;
    joined := "";
    for k := 0 to |texts|
      invariant joined == PlainText(texts[..k])
    {
      var parts := LinkParts(texts[k]);
      var value := "";
      if parts.Some? {
        value := PlainTextOfParts(parts.value);
      }
      assert texts[..k + 1][..k] == texts[..k];
      joined := if k == 0 then value else joined + "\n\n" + value;
    }
    assert texts[..|texts|] == texts;
  }

  method PlainTextOfParts(p: Parts) returns (value: string)
    requires |p.plain| == |p.links| + 1
    ensures value == PlainParts(p)
  {
    value := p.plain[0];
    ghost var before := "";
    assert Parts(p.plain[0..], p.links[0..]) == p;
    for i := 0 to |p.links|
      invariant value == before + p.plain[i]
      invariant PlainParts(p) == before + PlainParts(Parts(p.plain[i..], p.links[i..]))
    {
      before := before + p.plain[i] + p.links[i].1;
      assert p.plain[i..][1..] == p.plain[i + 1..] && p.links[i..][1..] == p.links[i + 1..];
      value := value + p.links[i].1 + p.plain[i + 1];
    }
  }

  function BlockTexts(blocks: seq<Block>): seq<string> {
    seq(|blocks|, i requires 0 <= i < |blocks| => blocks[i].text)
  }

  function ReplacementTexts(rs: seq<Replacement>): seq<string> {
    seq(|rs|, i requires 0 <= i < |rs| => rs[i].text)
  }
}
