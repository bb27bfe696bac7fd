/**
 What `_paragraph_layout` (src/oveo/docx.py) takes for a hyperlink, as a grammar: a paragraph is a row of texts with a
 link between each two, and a link is a link element without field markup inside, or a complex field whose code
 is a HYPERLINK instruction. Everything else is left alone.
 */
module DocxFields {
  import opened UnicodeText
  import opened DocxLinks
  import opened DocxTree
  import opened DocxLayout

  // ----- the instruction -----

  /** Spaces, then the word in any case, then the end or a character that continues no word. */
  ghost predicate IsInstruction(code: string, word: string, k: nat) {
    && k + |word| <= |code|
    && (forall i :: 0 <= i < k ==> IsSpace(code[i]))
    && (forall i :: 0 <= i < |word| ==> Folded(code[k + i]) == word[i])
    && (k + |word| == |code| || !IsWord(code[k + |word|]))
  }

  lemma {:induction false} DropsSpaces(code: string) returns (k: nat)
    ensures k <= |code| && DropSpace(code) == code[k..] && forall i :: 0 <= i < k ==> IsSpace(code[i])
    ensures k < |code| ==> !IsSpace(code[k])
  {
    k := 0;
    if code != "" && IsSpace(code[0]) {
      var j := DropsSpaces(code[1..]);
      k := j + 1;
      assert code[1..][j..] == code[k..];
      assert forall i :: 1 <= i < k ==> code[1..][i - 1] == code[i];
    } else {
      assert code[0..] == code;
    }
  }

  /** The instruction test, without dropping anything: exactly the codes the regular expression matches. */
  lemma HyperlinkCodes(code: string)
    ensures IsHyperlinkCode(code) <==> exists k: nat :: IsInstruction(code, "hyperlink", k)
  {
    var k := DropsSpaces(code);
    var s := code[k..];
    assert forall i :: 0 <= i < |s| ==> s[i] == code[k + i];
    if IsHyperlinkCode(code) {
      assert IsInstruction(code, "hyperlink", k);
    }
    if j: nat :| IsInstruction(code, "hyperlink", j) {
      assert Folded(code[j + 0]) == "hyperlink"[0] == 'h';
      NoSpaceFolds(code[j]);
      assert j == k;
    }
  }

  lemma NoSpaceFolds(c: char)
    ensures Folded(c) == 'h' ==> !IsSpace(c)
  {
  }

  // ----- the grammar -----

  predicate IsFieldMark(c: Cell, kind: string) {
    c.Found? && c.leaf == FieldChar(kind) && c.place.direct
  }

  /** Neither a link element nor field markup. */
  predicate Neutral(c: Cell) {
    match c
    case Found(_, leaf, _) => !leaf.FieldChar? && !leaf.Instruction?
    case Nested(_, tag) => !tag.SimpleField?
    case _ => false
  }

  predicate AllNeutral(cs: seq<Cell>) {
    forall i :: 0 <= i < |cs| ==> Neutral(cs[i])
  }

  /** Inside a field code: instructions in the paragraph's own runs, and nothing that shows. */
  predicate InCode(c: Cell) {
    if c.Found? && c.leaf.Instruction? then c.place.direct else Neutral(c) && !IsInline(c)
  }

  predicate AllInCode(cs: seq<Cell>) {
    forall i :: 0 <= i < |cs| ==> InCode(cs[i])
  }

  function Instructions(cs: seq<Cell>): string {
    if cs == [] then ""
    else
      var c := cs[|cs| - 1];
      Instructions(cs[..|cs| - 1]) + if c.Found? && c.leaf.Instruction? then c.leaf.code else ""
  }

  datatype Piece =
    | LinkElement(open: Cell, inner: seq<Cell>, close: Cell)
    | LinkField(begin: Cell, code: seq<Cell>, separate: Cell, result: seq<Cell>, end: Cell)

  predicate IsLinkStart(c: Cell) {
    c.Open? && (c.tag.SimpleField? ==> IsHyperlinkCode(c.tag.code))
  }

  predicate PieceOk(p: Piece) {
    match p
    case LinkElement(open, inner, close) => IsLinkStart(open) && AllNeutral(inner) && close.Close?
    case LinkField(begin, code, separate, result, end) =>
      && IsFieldMark(begin, "begin") && AllInCode(code) && IsFieldMark(separate, "separate")
      && IsHyperlinkCode(Instructions(code)) && AllNeutral(result) && IsFieldMark(end, "end")
  }

  function PieceCells(p: Piece): seq<Cell> {
    match p
    case LinkElement(open, inner, close) => [open] + inner + [close]
    case LinkField(begin, code, separate, result, end) => [begin] + code + [separate] + result + [end]
  }

  function Shown(p: Piece): seq<Cell> {
    if p.LinkElement? then p.inner else p.result
  }

  function AnchorOf(p: Piece): Anchor
    requires PieceOk(p)
  {
    if p.LinkElement? then Anchor(p.open.id, p.close.id, Some(p.open.tag)) else Anchor(p.begin.id, p.end.id, None)
  }

  predicate Sentence(texts: seq<seq<Cell>>, links: seq<Piece>) {
    && |texts| == |links| + 1
    && (forall i :: 0 <= i < |texts| ==> AllNeutral(texts[i]))
    && (forall i :: 0 <= i < |links| ==> PieceOk(links[i]))
  }

  /** Text, link, text, link, ..., text. */
  function Flat(texts: seq<seq<Cell>>, links: seq<Piece>): seq<Cell>
    requires |texts| == |links| + 1
  {
    if links == [] then texts[0]
    else
      var n := |links|;
      Flat(texts[..n], links[..n - 1]) + PieceCells(links[n - 1]) + texts[n]
  }

  function LayoutOfSentence(texts: seq<seq<Cell>>, links: seq<Piece>): Layout
    requires Sentence(texts, links)
  {
    Layout(seq(|texts|, i requires 0 <= i < |texts| => InlineOf(texts[i])),
           seq(|links|, i requires 0 <= i < |links| => Link(AnchorOf(links[i]), InlineOf(Shown(links[i])))))
  }

  // ----- reading what the grammar allows -----

  lemma NeutralStep(s: Control, c: Cell)
    requires s.At? && !s.mode.Code? && Neutral(c)
    ensures Step(s, c) == s && Closing(s, c) == []
  {
  }

  lemma {:induction false} NeutralTail(a: seq<Cell>, x: seq<Cell>, z: Zone)
    requires Walk(a).At? && !Walk(a).mode.Code? && AllNeutral(x)
    ensures Walk(a + x) == Walk(a) && Anchors(a + x) == Anchors(a)
    ensures Sel(a + x, z) == Sel(a, z) + if InZone(Walk(a), z) then InlineOf(x) else []
    decreases |x|
  {
    hide Walk, Sel, Anchors, Step, Closing, IsInline, InZone, Neutral;
    if x == [] {
      assert a + x == a;
    } else {
      var x', c := x[..|x| - 1], x[|x| - 1];
      NeutralTail(a, x', z);
      assert a + x == a + x' + [c] && x == x' + [c];
      Snoc(a + x', c, z);
      NeutralStep(Walk(a), c);
      InlineOfAppend(x', [c]);
      InlineOfOne(c);
    }
  }

  lemma CodeStep(s: Control, c: Cell)
    requires s.At? && s.mode.Code? && InCode(c)
    ensures Step(s, c) == At(s.links, Code(s.mode.begin, s.mode.code + if c.Found? && c.leaf.Instruction? then c.leaf.code else ""))
    ensures Closing(s, c) == []
  {
    assert s.mode.code + "" == s.mode.code;
  }

  lemma {:induction false} CodeTail(a: seq<Cell>, x: seq<Cell>, z: Zone)
    requires Walk(a).At? && Walk(a).mode.Code? && AllInCode(x)
    ensures Walk(a + x) == At(Walk(a).links, Code(Walk(a).mode.begin, Walk(a).mode.code + Instructions(x)))
    ensures Anchors(a + x) == Anchors(a) && Sel(a + x, z) == Sel(a, z)
    decreases |x|
  {
    hide Walk, Sel, Anchors, Step, Closing, IsInline, InCode;
    if x == [] {
      assert a + x == a && Walk(a).mode.code + "" == Walk(a).mode.code;
    } else {
      var x', c := x[..|x| - 1], x[|x| - 1];
      CodeTail(a, x', z);
      assert a + x == a + x' + [c];
      Snoc(a + x', c, z);
      CodeStep(Walk(a + x'), c);
      Regroup(Walk(a).mode.code, Instructions(x'), if c.Found? && c.leaf.Instruction? then c.leaf.code else "");
    }
  }

  /** The marks that open, separate and close a link. */
  lemma MarkSteps(s: Control, c: Cell)
    requires s.At?
    ensures s.mode.Plain? && IsLinkStart(c) ==> Step(s, c) == At(s.links, Inside(c.id, c.tag)) && Closing(s, c) == []
    ensures s.mode.Plain? && IsFieldMark(c, "begin") ==> Step(s, c) == At(s.links, Code(c.id, "")) && Closing(s, c) == []
    ensures s.mode.Code? && IsHyperlinkCode(s.mode.code) && IsFieldMark(c, "separate") ==>
              Step(s, c) == At(s.links, Result(s.mode.begin)) && Closing(s, c) == []
    ensures s.mode.Result? && IsFieldMark(c, "end") ==>
              Step(s, c) == At(s.links + 1, Plain) && Closing(s, c) == [Anchor(s.mode.begin, c.id, None)]
    ensures s.mode.Inside? && c.Close? ==>
              Step(s, c) == At(s.links + 1, Plain) && Closing(s, c) == [Anchor(s.mode.id, c.id, Some(s.mode.tag))]
  {
    hide IsHyperlinkCode;
  }

  lemma MarksShowNothing(c: Cell)
    ensures IsLinkStart(c) || c.Close? || (c.Found? && c.leaf.FieldChar?) ==> !IsInline(c)
  {
  }

  lemma ElementTail(a: seq<Cell>, p: Piece, z: Zone)
    requires Walk(a).At? && Walk(a).mode.Plain? && p.LinkElement? && PieceOk(p)
    ensures Walk(a + PieceCells(p)) == At(Walk(a).links + 1, Plain) && Anchors(a + PieceCells(p)) == Anchors(a) + [AnchorOf(p)]
    ensures Sel(a + PieceCells(p), z) == Sel(a, z) + if z == Zone(Walk(a).links, true) then InlineOf(Shown(p)) else []
  {
    hide Walk, Sel, Anchors, Step, Closing, IsInline, IsLinkStart, AllNeutral;
    var b := a + [p.open];
    Snoc(a, p.open, z);
    MarkSteps(Walk(a), p.open);
    MarksShowNothing(p.open);
    NeutralTail(b, p.inner, z);
    Snoc(b + p.inner, p.close, z);
    MarkSteps(Walk(b), p.close);
    MarksShowNothing(p.close);
    assert a + PieceCells(p) == b + p.inner + [p.close];
    StartIsOpen(p.open);
    assert Sel(a, z) + [] == Sel(a, z);
  }

  lemma StartIsOpen(c: Cell)
    ensures IsLinkStart(c) ==> c.Open?
  {
  }

  lemma FieldTail(a: seq<Cell>, p: Piece, z: Zone)
    requires Walk(a).At? && Walk(a).mode.Plain? && p.LinkField? && PieceOk(p)
    ensures Walk(a + PieceCells(p)) == At(Walk(a).links + 1, Plain) && Anchors(a + PieceCells(p)) == Anchors(a) + [AnchorOf(p)]
    ensures Sel(a + PieceCells(p), z) == Sel(a, z) + if z == Zone(Walk(a).links, true) then InlineOf(Shown(p)) else []
  {
    hide Walk, Sel, Anchors, Step, Closing, IsInline, AllNeutral, AllInCode, IsHyperlinkCode, Instructions;
    var b := a + [p.begin];
    var c := b + p.code;
    var d := c + [p.separate];
    Snoc(a, p.begin, z);
    MarkSteps(Walk(a), p.begin);
    MarksShowNothing(p.begin);
    CodeTail(b, p.code, z);
    assert "" + Instructions(p.code) == Instructions(p.code);
    Snoc(c, p.separate, z);
    MarkSteps(Walk(c), p.separate);
    MarksShowNothing(p.separate);
    NeutralTail(d, p.result, z);
    Snoc(d + p.result, p.end, z);
    MarkSteps(Walk(d), p.end);
    MarksShowNothing(p.end);
    assert a + PieceCells(p) == d + p.result + [p.end];
    assert Sel(a, z) + [] == Sel(a, z);
  }

  lemma PieceTail(a: seq<Cell>, p: Piece, z: Zone)
    requires Walk(a).At? && Walk(a).mode.Plain? && PieceOk(p)
    ensures Walk(a + PieceCells(p)) == At(Walk(a).links + 1, Plain) && Anchors(a + PieceCells(p)) == Anchors(a) + [AnchorOf(p)]
    ensures Sel(a + PieceCells(p), z) == Sel(a, z) + if z == Zone(Walk(a).links, true) then InlineOf(Shown(p)) else []
  {
    hide Walk, Sel, Anchors, PieceOk, PieceCells, AnchorOf, InlineOf;
    if p.LinkElement? {
      ElementTail(a, p, z);
    } else {
      FieldTail(a, p, z);
    }
  }

  function AnchorsOf(links: seq<Piece>): seq<Anchor>
    requires forall i :: 0 <= i < |links| ==> PieceOk(links[i])
  {
    seq(|links|, i requires 0 <= i < |links| => AnchorOf(links[i]))
  }

  /** What stretch `z` of a sentence shows. */
  function Stretch(texts: seq<seq<Cell>>, links: seq<Piece>, z: Zone): seq<Cell> {
    if z.link then if z.index < |links| then InlineOf(Shown(links[z.index])) else []
    else if z.index < |texts| then InlineOf(texts[z.index]) else []
  }

  lemma {:induction false} SentenceReads(texts: seq<seq<Cell>>, links: seq<Piece>, z: Zone)
    requires Sentence(texts, links)
    ensures Walk(Flat(texts, links)) == At(|links|, Plain) && Anchors(Flat(texts, links)) == AnchorsOf(links)
    ensures Sel(Flat(texts, links), z) == Stretch(texts, links, z)
    decreases |links|
  {
    hide Walk, Sel, Anchors, PieceOk, PieceCells, AnchorOf, InlineOf, AllNeutral, Shown;
    var n := |links|;
    if n == 0 {
      StartOfWalk(z);
      NeutralTail([], texts[0], z);
      assert [] + texts[0] == texts[0];
      assert [] + InlineOf(texts[0]) == InlineOf(texts[0]);
    } else {
      var ts, ls := texts[..n], links[..n - 1];
      assert Sentence(ts, ls);
      SentenceReads(ts, ls, z);
      var a := Flat(ts, ls);
      PieceTail(a, links[n - 1], z);
      NeutralTail(a + PieceCells(links[n - 1]), texts[n], z);
      assert [] + InlineOf(texts[n]) == InlineOf(texts[n]) && [] + InlineOf(Shown(links[n - 1])) == InlineOf(Shown(links[n - 1]));
    }
  }

  lemma StartOfWalk(z: Zone)
    ensures Walk([]) == At(0, Plain) && Sel([], z) == [] && Anchors([]) == []
  {
  }

  // ----- the grammar of what was read -----

  /** The part of a link read so far. */
  datatype Pending =
    | Nothing
    | PartElement(open: Cell, inner: seq<Cell>)
    | PartCode(begin: Cell, code: seq<Cell>)
    | PartResult(begin: Cell, code: seq<Cell>, separate: Cell, result: seq<Cell>)

  function PendingCells(p: Pending): seq<Cell> {
    match p
    case Nothing => []
    case PartElement(open, inner) => [open] + inner
    case PartCode(begin, code) => [begin] + code
    case PartResult(begin, code, separate, result) => [begin] + code + [separate] + result
  }

  predicate PendingOk(mode: Mode, p: Pending) {
    match p
    case Nothing => mode.Plain?
    case PartElement(open, inner) => IsLinkStart(open) && AllNeutral(inner) && mode == Inside(open.id, open.tag)
    case PartCode(begin, code) => IsFieldMark(begin, "begin") && AllInCode(code) && mode == Code(begin.id, Instructions(code))
    case PartResult(begin, code, separate, result) =>
      && IsFieldMark(begin, "begin") && AllInCode(code) && IsFieldMark(separate, "separate")
      && IsHyperlinkCode(Instructions(code)) && AllNeutral(result) && mode == Result(begin.id)
  }

  /** One more cell within a link: it is continued, or closed by a piece. */
  datatype Progress = Continued(part: Pending) | Closed(piece: Piece)

  ghost predicate ProgressOk(s: Control, t: Control, part: Pending, c: Cell, next: Progress)
    requires s.At? && t.At?
  {
    match next
    case Continued(p) => t.links == s.links && PendingOk(t.mode, p) && PendingCells(p) == PendingCells(part) + [c]
    case Closed(piece) => t == At(s.links + 1, Plain) && PieceOk(piece) && PieceCells(piece) == PendingCells(part) + [c]
  }

  lemma InstructionsSnoc(cs: seq<Cell>, c: Cell)
    ensures Instructions(cs + [c]) == Instructions(cs) + if c.Found? && c.leaf.Instruction? then c.leaf.code else ""
  {
    assert (cs + [c])[..|cs|] == cs;
  }

  lemma NeutralOtherwise(c: Cell)
    ensures c.Open? || c.Close? || IsField(c) || Neutral(c)
    ensures IsInline(c) ==> Neutral(c)
  {
  }

  lemma ElementProgress(s: Control, part: Pending, c: Cell) returns (next: Progress)
    requires s.At? && Step(s, c).At? && part.PartElement? && PendingOk(s.mode, part)
    ensures ProgressOk(s, Step(s, c), part, c, next)
  {
    hide IsLinkStart, IsHyperlinkCode;
    NeutralOtherwise(c);
    if c.Close? {
      next := Closed(LinkElement(part.open, part.inner, c));
    } else {
      next := Continued(PartElement(part.open, part.inner + [c]));
      assert [part.open] + (part.inner + [c]) == [part.open] + part.inner + [c];
    }
  }

  lemma CodeProgress(s: Control, part: Pending, c: Cell) returns (next: Progress)
    requires s.At? && Step(s, c).At? && part.PartCode? && PendingOk(s.mode, part)
    ensures ProgressOk(s, Step(s, c), part, c, next)
  {
    hide IsHyperlinkCode, Instructions;
    NeutralOtherwise(c);
    InstructionsSnoc(part.code, c);
    if c.Found? && c.leaf == FieldChar("separate") {
      next := Continued(PartResult(part.begin, part.code, c, []));
      assert [part.begin] + part.code + [c] + [] == [part.begin] + part.code + [c];
    } else {
      next := Continued(PartCode(part.begin, part.code + [c]));
      assert [part.begin] + (part.code + [c]) == [part.begin] + part.code + [c];
      assert Instructions(part.code) + "" == Instructions(part.code);
    }
  }

  lemma ResultProgress(s: Control, part: Pending, c: Cell) returns (next: Progress)
    requires s.At? && Step(s, c).At? && part.PartResult? && PendingOk(s.mode, part)
    ensures ProgressOk(s, Step(s, c), part, c, next)
  {
    hide IsHyperlinkCode, Instructions;
    NeutralOtherwise(c);
    var head := [part.begin] + part.code + [part.separate];
    if c.Found? && c.leaf == FieldChar("end") {
      next := Closed(LinkField(part.begin, part.code, part.separate, part.result, c));
    } else {
      next := Continued(PartResult(part.begin, part.code, part.separate, part.result + [c]));
      assert head + (part.result + [c]) == head + part.result + [c];
    }
  }

  /** Between links: more text, or a link begins. */
  lemma PlainProgress(s: Control, c: Cell) returns (part: Pending)
    requires s.At? && s.mode.Plain? && Step(s, c).At?
    ensures Step(s, c).links == s.links && PendingOk(Step(s, c).mode, part)
    ensures if part.Nothing? then Neutral(c) else PendingCells(part) == [c]
  {
    hide IsHyperlinkCode;
    NeutralOtherwise(c);
    if c.Open? {
      part := PartElement(c, []);
      assert [c] + [] == [c];
    } else if c.Found? && c.leaf == FieldChar("begin") {
      part := PartCode(c, []);
      assert [c] + [] == [c];
    } else {
      part := Nothing;
    }
  }

  lemma FlatMore(texts: seq<seq<Cell>>, links: seq<Piece>, c: Cell)
    requires Sentence(texts, links) && Neutral(c)
    ensures var n := |links|; var more := texts[..n] + [texts[n] + [c]];
            Sentence(more, links) && Flat(more, links) == Flat(texts, links) + [c]
  {
    hide PieceOk, PieceCells, Neutral;
    var n := |links|;
    var more := texts[..n] + [texts[n] + [c]];
    assert more[..n] == texts[..n] && more[n] == texts[n] + [c];
  }

  lemma FlatPiece(texts: seq<seq<Cell>>, links: seq<Piece>, p: Piece)
    requires Sentence(texts, links) && PieceOk(p)
    ensures Sentence(texts + [[]], links + [p]) && Flat(texts + [[]], links + [p]) == Flat(texts, links) + PieceCells(p)
  {
    hide PieceOk, PieceCells;
    var n := |links|;
    var ts, ls := texts + [[]], links + [p];
    assert ts[..n + 1] == texts && ls[..n] == links && ts[n + 1] == [];
    assert AllNeutral([]);
  }

  /** Whatever the machine reads is a sentence followed by the part of a link. */
  lemma {:induction false} ReadIsSentence(cs: seq<Cell>) returns (texts: seq<seq<Cell>>, links: seq<Piece>, part: Pending)
    requires Walk(cs).At?
    ensures Sentence(texts, links) && |links| == Walk(cs).links && PendingOk(Walk(cs).mode, part)
    ensures cs == Flat(texts, links) + PendingCells(part)
  {
    hide Step, PieceOk, PieceCells, PendingOk, PendingCells, Flat, Sentence;
    if cs == [] {
      texts, links, part := [[]], [], Nothing;
      EmptySentence();
    } else {
      var a, c := cs[..|cs| - 1], cs[|cs| - 1];
      assert cs == a + [c];
      StepFrom(Walk(a), c);
      texts, links, part := ReadIsSentence(a);
      texts, links, part := OneMore(texts, links, part, Walk(a), c);
    }
  }

  lemma StepFrom(s: Control, c: Cell)
    ensures Step(s, c).At? ==> s.At?
  {
  }

  lemma EmptySentence()
    ensures Sentence([[]], []) && PendingOk(Plain, Nothing) && Flat([[]], []) + PendingCells(Nothing) == []
  {
  }

  lemma NothingPending(mode: Mode, part: Pending)
    requires PendingOk(mode, part)
    ensures mode.Plain? <==> part.Nothing?
    ensures part.Nothing? ==> PendingCells(part) == []
  {
  }

  lemma OneMore(texts: seq<seq<Cell>>, links: seq<Piece>, part: Pending, s: Control, c: Cell)
    returns (texts': seq<seq<Cell>>, links': seq<Piece>, part': Pending)
    requires Sentence(texts, links) && s.At? && |links| == s.links && PendingOk(s.mode, part) && Step(s, c).At?
    ensures Sentence(texts', links') && |links'| == Step(s, c).links && PendingOk(Step(s, c).mode, part')
    ensures Flat(texts', links') + PendingCells(part') == Flat(texts, links) + PendingCells(part) + [c]
  {
    hide Step, PieceOk, PieceCells, PendingOk, PendingCells, Flat, Neutral;
    texts', links', part' := texts, links, part;
    var all := Flat(texts, links);
    NothingPending(s.mode, part);
    if part.Nothing? {
      part' := PlainProgress(s, c);
      NothingPending(Step(s, c).mode, part');
      assert all + [] == all;
      if part'.Nothing? {
        FlatMore(texts, links, c);
        texts' := texts[..|links|] + [texts[|links|] + [c]];
        assert Flat(texts', links') + [] == Flat(texts', links');
      }
    } else {
      var next: Progress;
      if part.PartElement? {
        next := ElementProgress(s, part, c);
      } else if part.PartCode? {
        next := CodeProgress(s, part, c);
      } else {
        next := ResultProgress(s, part, c);
      }
      Regroup(all, PendingCells(part), [c]);
      if next.Continued? {
        part' := next.part;
      } else {
        FlatPiece(texts, links, next.piece);
        texts', links', part' := texts + [[]], links + [next.piece], Nothing;
        NoPart();
        assert Flat(texts', links') + [] == Flat(texts', links');
      }
    }
  }

  lemma NoPart()
    ensures PendingOk(Plain, Nothing) && PendingCells(Nothing) == []
  {
  }

  // ----- the theorem -----

  ghost predicate Reads(cs: seq<Cell>, layout: Layout) {
    exists texts, links :: Sentence(texts, links) && Flat(texts, links) == cs && layout == LayoutOfSentence(texts, links)
  }

  lemma SentenceLayout(texts: seq<seq<Cell>>, links: seq<Piece>)
    requires Sentence(texts, links)
    ensures LayoutOf(Flat(texts, links)) == Some(LayoutOfSentence(texts, links))
  {
    hide Walk, Sel, Anchors, Flat, InlineOf, PieceOk, AnchorOf, Shown, AllNeutral;
    var cs := Flat(texts, links);
    SentenceReads(texts, links, Zone(0, false));
    forall z
      ensures Sel(cs, z) == Stretch(texts, links, z)
    {
      SentenceReads(texts, links, z);
    }
    var layout := LayoutOfSentence(texts, links);
    assert layout.plain == LayoutOf(cs).value.plain;
    assert forall i :: 0 <= i < |links| ==> Anchors(cs)[i] == AnchorOf(links[i]);
    assert layout.links == LayoutOf(cs).value.links;
  }

  /** The split succeeds exactly on the sentences of the grammar, with their texts and links. */
  lemma LayoutIffSentence(cs: seq<Cell>, layout: Layout)
    ensures LayoutOf(cs) == Some(layout) <==> Reads(cs, layout)
  {
    hide Walk, Sel, Anchors, Flat, PieceOk, AllNeutral, LayoutOfSentence, PendingCells, PendingOk;
    if LayoutOf(cs) == Some(layout) {
      var texts, links, part := ReadIsSentence(cs);
      NothingPending(Walk(cs).mode, part);
      assert Flat(texts, links) + [] == Flat(texts, links);
      SentenceLayout(texts, links);
      assert Sentence(texts, links) && Flat(texts, links) == cs && layout == LayoutOfSentence(texts, links);
    }
    if Reads(cs, layout) {
      var texts, links :| Sentence(texts, links) && Flat(texts, links) == cs && layout == LayoutOfSentence(texts, links);
      SentenceLayout(texts, links);
    }
  }
}
