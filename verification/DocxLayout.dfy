/**
 Splitting a paragraph's text around its hyperlinks (`_paragraph_layout`, src/oveo/docx.py).

 `Control` is the state of the field machine and `Zone` names a stretch: the plain text before link
 `index` (or after the last one), or the display text of that link. `LayoutOf` says declaratively which
 cells each stretch holds; the method `ParagraphLayout` is the source's loop.
 */
module DocxLayout {
  import opened UnicodeText
  import opened DocxLinks
  import opened DocxTree

  datatype Mode =
    | Plain
    | Code(begin: nat, code: string)    // after a begin character, reading the field code
    | Result(begin: nat)                // after the separate character
    | Inside(id: nat, tag: Tag)         // inside a w:hyperlink or w:fldSimple

  datatype Control = Stuck | At(links: nat, mode: Mode)

  datatype Zone = Zone(index: nat, link: bool)

  /** `start` and `end` of a protected link; `tag` is None for a complex field. */
  datatype Anchor = Anchor(start: nat, end: nat, tag: Option<Tag>)

  datatype Link = Link(anchor: Anchor, items: seq<Cell>)

  datatype Layout = Layout(plain: seq<seq<Cell>>, links: seq<Link>)

  // ----- the HYPERLINK instruction -----

  function DropSpace(s: string): string {
    if s != "" && IsSpace(s[0]) then DropSpace(s[1..]) else s
  }

  /** `\s*HYPERLINK\b`, ignoring case */
  predicate IsHyperlinkCode(code: string) {
    var s := DropSpace(code);
    && |s| >= 9
    && (forall i :: 0 <= i < 9 ==> Folded(s[i]) == "hyperlink"[i])
    && (|s| == 9 || !IsWord(s[9]))
  }

  // ----- the field machine -----

  predicate IsField(c: Cell) {
    (c.Nested? && c.tag.SimpleField?) || (c.Found? && (c.leaf.FieldChar? || c.leaf.Instruction?))
  }

  function StepField(s: Control, c: Cell): Control
    requires s.At? && IsField(c)
  {
    if c.Nested? || !c.place.direct || s.mode.Inside? then Stuck
    else match c.leaf
      case Instruction(text) =>
        if s.mode.Code? then At(s.links, Code(s.mode.begin, s.mode.code + text)) else Stuck
      case FieldChar(kind) =>
        if kind == "begin" && s.mode.Plain? then At(s.links, Code(c.id, ""))
        else if kind == "separate" && s.mode.Code? && IsHyperlinkCode(s.mode.code) then At(s.links, Result(s.mode.begin))
        else if kind == "end" && s.mode.Result? then At(s.links + 1, Plain)
        else Stuck
      case _ => Stuck
  }

  function Step(s: Control, c: Cell): Control {
    if s.Stuck? then Stuck
    else if c.Open? then
      if s.mode.Plain? && (c.tag.SimpleField? ==> IsHyperlinkCode(c.tag.code)) then At(s.links, Inside(c.id, c.tag)) else Stuck
    else if c.Close? then
      if s.mode.Inside? then At(s.links + 1, Plain) else Stuck
    else if IsInline(c) then
      if s.mode.Code? then Stuck else s
    else if IsField(c) then StepField(s, c)
    else s
  }

  function Walk(cs: seq<Cell>): Control {
    if cs == [] then At(0, Plain) else Step(Walk(cs[..|cs| - 1]), cs[|cs| - 1])
  }

  predicate InZone(s: Control, z: Zone) {
    s.At? && !s.mode.Code? && z == Zone(s.links, !s.mode.Plain?)
  }

  /** The inline cells of one stretch, in document order. */
  function Sel(cs: seq<Cell>, z: Zone): (r: seq<Cell>)
    ensures AllInline(r)
  {
    if cs == [] then []
    else
      var before, c := cs[..|cs| - 1], cs[|cs| - 1];
      Sel(before, z) + if IsInline(c) && InZone(Walk(before), z) then [c] else []
  }

  function Closing(s: Control, c: Cell): seq<Anchor> {
    if s.Stuck? || Step(s, c).Stuck? || Step(s, c).links == s.links then []
    else if s.mode.Inside? then [Anchor(s.mode.id, c.id, Some(s.mode.tag))]
    else if s.mode.Result? then [Anchor(s.mode.begin, c.id, None)]
    else []
  }

  function Anchors(cs: seq<Cell>): (r: seq<Anchor>)
    ensures Walk(cs).At? ==> |r| == Walk(cs).links
  {
    if cs == [] then [] else Anchors(cs[..|cs| - 1]) + Closing(Walk(cs[..|cs| - 1]), cs[|cs| - 1])
  }

  /** The stretches of a paragraph, or None when it must be left alone. */
  function LayoutOf(cs: seq<Cell>): (r: Option<Layout>)
    ensures r.Some? ==> |r.value.plain| == |r.value.links| + 1
    ensures r.Some? ==> forall i :: 0 <= i < |r.value.plain| ==> AllInline(r.value.plain[i])
    ensures r.Some? ==> forall i :: 0 <= i < |r.value.links| ==> AllInline(r.value.links[i].items)
  {
    var end := Walk(cs);
    if end.At? && end.mode.Plain? then
      Some(Layout(seq(end.links + 1, i requires 0 <= i => Sel(cs, Zone(i, false))),
                  seq(end.links, i requires 0 <= i < end.links => Link(Anchors(cs)[i], Sel(cs, Zone(i, true))))))
    else None
  }

  // ----- a snoc view -----

  lemma Snoc(a: seq<Cell>, c: Cell, z: Zone)
    ensures Walk(a + [c]) == Step(Walk(a), c)
    ensures Sel(a + [c], z) == Sel(a, z) + if IsInline(c) && InZone(Walk(a), z) then [c] else []
    ensures Anchors(a + [c]) == Anchors(a) + Closing(Walk(a), c)
  {
    hide Step, IsInline, InZone, Closing;
    assert (a + [c])[..|a + [c]| - 1] == a && (a + [c])[|a + [c]| - 1] == c;
  }

  lemma {:induction false} StuckStays(a: seq<Cell>, b: seq<Cell>)
    requires Walk(a).Stuck?
    ensures Walk(a + b).Stuck?
    decreases |b|
  {
    if b == [] {
      assert a + b == a;
    } else {
      StuckStays(a, b[..|b| - 1]);
      assert a + b == a + b[..|b| - 1] + [b[|b| - 1]];
      Snoc(a + b[..|b| - 1], b[|b| - 1], Zone(0, false));
    }
  }

  // ----- inserting inline cells -----

  lemma QuietStep(s: Control, c: Cell)
    requires c.Found? && (c.leaf.Text? || c.leaf.Glyph?) && s.At? && !s.mode.Code?
    ensures Step(s, c) == s && Closing(s, c) == []
  {
  }

  lemma {:induction false} QuietTail(a: seq<Cell>, x: seq<Cell>, z: Zone)
    requires Quiet(x) && Walk(a).At? && !Walk(a).mode.Code?
    ensures Walk(a + x) == Walk(a) && Anchors(a + x) == Anchors(a)
    ensures Sel(a + x, z) == Sel(a, z) + if InZone(Walk(a), z) then InlineOf(x) else []
    decreases |x|
  {
    hide Walk, Sel, Anchors, Step, Closing, IsInline, InZone;
    if x == [] {
      assert a + x == a;
    } else {
      var x', c := x[..|x| - 1], x[|x| - 1];
      QuietTail(a, x', z);
      assert a + x == a + x' + [c] && x == x' + [c];
      Snoc(a + x', c, z);
      QuietStep(Walk(a), c);
    }
  }

  /** Text put where the machine is not reading a field code changes no other stretch. */
  lemma {:induction false} Insert(a: seq<Cell>, x: seq<Cell>, b: seq<Cell>, z: Zone)
    requires Quiet(x) && Walk(a).At? && !Walk(a).mode.Code?
    ensures Walk(a + x + b) == Walk(a + b) && Anchors(a + x + b) == Anchors(a + b)
    ensures !InZone(Walk(a), z) ==> Sel(a + x + b, z) == Sel(a + b, z)
    ensures InZone(Walk(a), z) && Sel(a + b, z) == [] ==> Sel(a + x + b, z) == InlineOf(x)
    decreases |b|
  {
    hide Walk, Sel, Anchors, Step, Closing, IsInline, InZone;
    if b == [] {
      QuietTail(a, x, z);
      assert a + x + b == a + x && a + b == a;
    } else {
      var b', c := b[..|b| - 1], b[|b| - 1];
      Insert(a, x, b', z);
      assert a + x + b == a + x + b' + [c] && a + b == a + b' + [c];
      Snoc(a + x + b', c, z);
      Snoc(a + b', c, z);
    }
  }

  // ----- replacing inline cells by text -----

  predicate QuietMap(cs: seq<Cell>, m: map<nat, seq<Node>>) {
    forall i :: 0 <= i < |cs| && cs[i].Found? && cs[i].id in m ==> IsInline(cs[i]) && Quiet(OwnAll(m[cs[i].id], cs[i].place))
  }

  /** A replacement acts on each stretch by itself and leaves links and field codes alone. */
  lemma {:induction false} Replace(cs: seq<Cell>, m: map<nat, seq<Node>>, z: Zone)
    requires QuietMap(cs, m) && Walk(cs).At?
    ensures Walk(FlatSubst(cs, m)) == Walk(cs) && Anchors(FlatSubst(cs, m)) == Anchors(cs)
    ensures Sel(FlatSubst(cs, m), z) == InlineOf(FlatSubst(Sel(cs, z), m))
  {
    if cs != [] {
      hide IsInline, InlineOf;
      var a, c := cs[..|cs| - 1], cs[|cs| - 1];
      assert forall i :: 0 <= i < |a| ==> a[i] == cs[i];
      assert Walk(a).At?;
      Replace(a, m, z);
      var fa, x := FlatSubst(a, m), CellSubst(c, m);
      assert FlatSubst(cs, m) == fa + x;
      var picked: seq<Cell> := if IsInline(c) && InZone(Walk(a), z) then [c] else [];
      FlatSubstAppend(Sel(a, z), picked, m);
      FlatSubstOne(c, m);
      InlineOfAppend(FlatSubst(Sel(a, z), m), FlatSubst(picked, m));
      NothingInline();
      if c.Found? && c.id in m {
        QuietTail(fa, x, z);
      } else {
        Snoc(fa, c, z);
        InlineOfOne(c);
      }
    } else {
      NothingInline();
    }
  }

  // ----- the loop of `_paragraph_layout` -----

  /** A stretch the machine has not reached holds nothing. */
  lemma {:induction false} NotYet(cs: seq<Cell>, z: Zone)
    requires Walk(cs).At?
    requires z.index > Walk(cs).links || (z == Zone(Walk(cs).links, true) && (Walk(cs).mode.Plain? || Walk(cs).mode.Code?))
    ensures Sel(cs, z) == []
  {
    if cs != [] {
      var a, c := cs[..|cs| - 1], cs[|cs| - 1];
      assert a + [c] == cs;
      Snoc(a, c, z);
      NotYet(a, z);
    }
  }

  predicate HasField(cs: seq<Cell>) {
    exists i :: 0 <= i < |cs| && IsField(cs[i])
  }

  predicate NoChildren(cs: seq<Cell>) {
    forall i :: 0 <= i < |cs| ==> !cs[i].Open? && !cs[i].Close?
  }

  lemma {:induction false} OwnHasNoChildren(n: Node, place: Place)
    ensures NoChildren(Own(n, place))
    decreases n, 1
  {
    if n.Element? && !IsForeign(n.tag) {
      OwnAllHasNoChildren(n.kids, Place(n.tag.Run?, false, place.alternate || n.tag.AlternateContent?));
    }
  }

  lemma {:induction false} OwnAllHasNoChildren(ns: seq<Node>, place: Place)
    ensures NoChildren(OwnAll(ns, place))
    decreases ns, 0
  {
    if ns != [] {
      OwnHasNoChildren(ns[0], place);
      OwnAllHasNoChildren(ns[1..], place);
    }
  }

  /** Reading the inside of a link element: a field stops everything, inline items become its display. */
  lemma {:induction false} InsideLink(a: seq<Cell>, inner: seq<Cell>, z: Zone)
    requires Walk(a).At? && Walk(a).mode.Inside? && NoChildren(inner)
    ensures HasField(inner) ==> Walk(a + inner).Stuck?
    ensures !HasField(inner) ==>
              && Walk(a + inner) == Walk(a) && Anchors(a + inner) == Anchors(a)
              && Sel(a + inner, z) == Sel(a, z) + if InZone(Walk(a), z) then InlineOf(inner) else []
    decreases |inner|
  {
    hide Walk, Sel, Anchors, Step, Closing, IsField, InZone;
    if inner == [] {
      assert a + inner == a;
    } else {
      var b, c := inner[..|inner| - 1], inner[|inner| - 1];
      assert forall i :: 0 <= i < |b| ==> b[i] == inner[i];
      InsideLink(a, b, z);
      assert a + inner == a + b + [c];
      Snoc(a + b, c, z);
      InsideStep(a, b, c);
      assert HasField(inner) <==> HasField(b) || IsField(c);
    }
  }

  lemma InsideStep(a: seq<Cell>, b: seq<Cell>, c: Cell)
    requires Walk(a).At? && Walk(a).mode.Inside? && !c.Open? && !c.Close?
    requires Walk(a + b).Stuck? || Walk(a + b) == Walk(a)
    ensures IsField(c) || Walk(a + b).Stuck? ==> Step(Walk(a + b), c).Stuck?
    ensures !IsField(c) && Walk(a + b).At? ==> Step(Walk(a + b), c) == Walk(a) && Closing(Walk(a + b), c) == []
  {
  }

  /** The loop's variables describe the cells read so far. */
  ghost predicate Reads(cs: seq<Cell>, plain: seq<seq<Cell>>, links: seq<Link>,
                        begin: Option<nat>, code: string, display: Option<seq<Cell>>)
  {
    && Walk(cs) == At(|links|, if begin.None? then Plain else if display.None? then Code(begin.value, code) else Result(begin.value))
    && (begin.None? ==> display.None?)
    && |plain| == |links| + 1
    && (forall k :: 0 <= k < |plain| ==> plain[k] == Sel(cs, Zone(k, false)))
    && (forall k :: 0 <= k < |links| ==> links[k] == Link(Anchors(cs)[k], Sel(cs, Zone(k, true))))
    && (display.Some? ==> display.value == Sel(cs, Zone(|links|, true)))
  }

  lemma ReadsIsLayout(cs: seq<Cell>, plain: seq<seq<Cell>>, links: seq<Link>,
                      begin: Option<nat>, code: string, display: Option<seq<Cell>>)
    requires Reads(cs, plain, links, begin, code, display)
    ensures LayoutOf(cs) == if begin.None? then Some(Layout(plain, links)) else None
  {
    hide Walk, Sel, Anchors;
    var n := |links|;
    if begin.None? {
      assert plain == seq(n + 1, i requires 0 <= i => Sel(cs, Zone(i, false)));
      assert links == seq(n, i requires 0 <= i < n => Link(Anchors(cs)[i], Sel(cs, Zone(i, true))));
    }
  }

  method ParagraphLayout(kids: seq<Node>) returns (r: Option<Layout>)
    ensures r == LayoutOf(Cells(kids))
  {
    hide Walk, Sel, Anchors, Reads, Cells, ChildCells, LayoutOf;
    var plain: seq<seq<Cell>> := [[]];
    var links: seq<Link> := [];
    var begin: Option<nat> := None;
    var code := "";
    var display: Option<seq<Cell>> := None;
    ghost var cs: seq<Cell> := [];
    ReadsStart(kids);
    var i := 0;
    while i < |kids|
      invariant 0 <= i <= |kids| && cs == Cells(kids[..i])
      invariant Reads(cs, plain, links, begin, code, display)
    {
      var child := kids[i];
      ghost var rest := CellsSplit(kids, i);
      ReadsMode(cs, plain, links, begin, code, display);
      if child.Element? && IsLinkTag(child.tag) {
        var inner := OwnAll(child.kids, TOP);
        if begin.Some? || HasField(inner) || (child.tag.SimpleField? && !IsHyperlinkCode(child.tag.code)) {
          LinkChildStuck(cs, child);
          GiveUp(cs + ChildCells(child), rest);
          return None;
        }
        LinkChildReads(cs, child, plain, links, code);
        links := links + [Link(Anchor(child.id, child.id, Some(child.tag)), InlineOf(inner))];
        plain := plain + [[]];
      } else {
        var elements := ChildCells(child);
        var j := 0;
        assert cs + elements[..0] == cs;
        while j < |elements|
          invariant 0 <= j <= |elements|
          invariant Reads(cs + elements[..j], plain, links, begin, code, display)
        {
          ChildHasNoChildren(child, j);
          assert cs + elements[..j + 1] == cs + elements[..j] + [elements[j]];
          var ok;
          plain, links, begin, code, display, ok :=
            ReadElement(cs + elements[..j], elements[j], plain, links, begin, code, display);
          if !ok {
            assert Cells(kids) == cs + elements[..j + 1] + (elements[j + 1..] + rest);
            GiveUp(cs + elements[..j + 1], elements[j + 1..] + rest);
            return None;
          }
          j := j + 1;
        }
        assert elements[..j] == elements;
      }
      cs := cs + ChildCells(child);
      i := i + 1;
    }
    assert kids[..i] == kids;
    ReadsIsLayout(cs, plain, links, begin, code, display);
    if begin.Some? {
      return None;
    }
    return Some(Layout(plain, links));
  }

  lemma ReadsStart(kids: seq<Node>)
    ensures kids[..0] == [] && Cells(kids[..0]) == []
    ensures Reads([], [[]], [], None, "", None)
  {
  }

  lemma GiveUp(a: seq<Cell>, b: seq<Cell>)
    requires Walk(a).Stuck?
    ensures LayoutOf(a + b).None?
  {
    StuckStays(a, b);
  }

  ghost function CellsSplit(kids: seq<Node>, i: nat): (rest: seq<Cell>)
    requires i < |kids|
    ensures Cells(kids) == Cells(kids[..i]) + ChildCells(kids[i]) + rest
    ensures Cells(kids[..i + 1]) == Cells(kids[..i]) + ChildCells(kids[i])
  {
    assert kids[..i + 1] == kids[..i] + [kids[i]];
    assert kids == kids[..i] + [kids[i]] + kids[i + 1..];
    CellsAppend(kids[..i] + [kids[i]], kids[i + 1..]);
    CellsAppend(kids[..i], [kids[i]]);
    CellsOne(kids[i]);
    Cells(kids[i + 1..])
  }

  lemma ChildHasNoChildren(child: Node, j: nat)
    requires !(child.Element? && IsLinkTag(child.tag)) && j < |ChildCells(child)|
    ensures !ChildCells(child)[j].Open? && !ChildCells(child)[j].Close?
  {
    if child.Element? && child.tag.Run? {
      OwnAllHasNoChildren(child.kids, IN_RUN);
    } else {
      OwnHasNoChildren(child, TOP);
    }
  }

  lemma LinkChildStuck(cs: seq<Cell>, child: Node)
    requires child.Element? && IsLinkTag(child.tag) && Walk(cs).At?
    requires !Walk(cs).mode.Plain? || HasField(OwnAll(child.kids, TOP)) || (child.tag.SimpleField? && !IsHyperlinkCode(child.tag.code))
    ensures Walk(cs + ChildCells(child)).Stuck?
  {
    hide Walk, Sel, Anchors, Closing, HasField, OwnAll, InlineOf, IsHyperlinkCode;
    var open, inner, close := Open(child.id, child.tag), OwnAll(child.kids, TOP), Close(child.id);
    var a := cs + [open];
    Snoc(cs, open, Zone(0, false));
    if Walk(a).Stuck? {
      StuckStays(a, inner + [close]);
      assert cs + ChildCells(child) == a + (inner + [close]);
    } else {
      OwnAllHasNoChildren(child.kids, TOP);
      InsideLink(a, inner, Zone(0, false));
      StuckStays(a + inner, [close]);
      assert cs + ChildCells(child) == a + inner + [close];
    }
  }

  lemma LinkChildReads(cs: seq<Cell>, child: Node, plain: seq<seq<Cell>>, links: seq<Link>, code: string)
    requires child.Element? && IsLinkTag(child.tag) && Reads(cs, plain, links, None, code, None)
    requires !HasField(OwnAll(child.kids, TOP)) && (child.tag.SimpleField? ==> IsHyperlinkCode(child.tag.code))
    ensures Reads(cs + ChildCells(child), plain + [[]],
                  links + [Link(Anchor(child.id, child.id, Some(child.tag)), InlineOf(OwnAll(child.kids, TOP)))], None, code, None)
  {
    hide Walk, Sel, Anchors, Closing, HasField, OwnAll, InlineOf, IsHyperlinkCode, ChildCells;
    Snoc(cs, Open(child.id, child.tag), Zone(0, false));
    hide Step;
    LinkChildSel(cs, child, |links|);
  }

  lemma LinkChildZone(cs: seq<Cell>, child: Node, n: nat, z: Zone)
    requires child.Element? && IsLinkTag(child.tag) && !HasField(OwnAll(child.kids, TOP))
    requires Walk(cs) == At(n, Plain) && Walk(cs + [Open(child.id, child.tag)]) == At(n, Inside(child.id, child.tag))
    ensures var now := cs + ChildCells(child);
            && Walk(now) == At(n + 1, Plain)
            && Anchors(now) == Anchors(cs) + [Anchor(child.id, child.id, Some(child.tag))]
            && Sel(now, z) == Sel(cs, z) + if z == Zone(n, true) then InlineOf(OwnAll(child.kids, TOP)) else []
  {
    hide Walk, Sel, Anchors, HasField, OwnAll, InlineOf, IsHyperlinkCode;
    var open, inner, close := Open(child.id, child.tag), OwnAll(child.kids, TOP), Close(child.id);
    var a := cs + [open];
    var b := a + inner;
    assert cs + ChildCells(child) == b + [close];
    OwnAllHasNoChildren(child.kids, TOP);
    Snoc(cs, open, z);
    InsideLink(a, inner, z);
    Snoc(b, close, z);
  }

  lemma LinkChildSel(cs: seq<Cell>, child: Node, n: nat)
    requires child.Element? && IsLinkTag(child.tag) && !HasField(OwnAll(child.kids, TOP))
    requires Walk(cs) == At(n, Plain) && Walk(cs + [Open(child.id, child.tag)]) == At(n, Inside(child.id, child.tag))
    ensures var now := cs + ChildCells(child);
            && Walk(now) == At(n + 1, Plain)
            && Anchors(now) == Anchors(cs) + [Anchor(child.id, child.id, Some(child.tag))]
            && (forall z :: z != Zone(n, true) ==> Sel(now, z) == Sel(cs, z))
            && Sel(now, Zone(n, true)) == InlineOf(OwnAll(child.kids, TOP)) && Sel(now, Zone(n + 1, false)) == []
  {
    hide Walk, Sel, Anchors, HasField, OwnAll, InlineOf, ChildCells;
    forall z
      ensures Sel(cs + ChildCells(child), z) == Sel(cs, z) + if z == Zone(n, true) then InlineOf(OwnAll(child.kids, TOP)) else []
    {
      LinkChildZone(cs, child, n, z);
    }
    LinkChildZone(cs, child, n, Zone(0, false));
    NotYet(cs, Zone(n, true));
    NotYet(cs, Zone(n + 1, false));
  }

  // How the loop's variables follow one more element.

  ghost predicate SelSnoc(cs: seq<Cell>, c: Cell) {
    && (forall z :: Sel(cs + [c], z) == Sel(cs, z) + if IsInline(c) && InZone(Walk(cs), z) then [c] else [])
    && Walk(cs + [c]) == Step(Walk(cs), c)
    && Anchors(cs + [c]) == Anchors(cs) + Closing(Walk(cs), c)
  }

  lemma SelSnocHolds(cs: seq<Cell>, c: Cell)
    ensures SelSnoc(cs, c)
  {
    hide Walk, Sel, Anchors, Step, Closing, IsInline, InZone;
    forall z
      ensures Sel(cs + [c], z) == Sel(cs, z) + if IsInline(c) && InZone(Walk(cs), z) then [c] else []
    {
      Snoc(cs, c, z);
    }
    Snoc(cs, c, Zone(0, false));
  }

  lemma ReadPlain(cs: seq<Cell>, c: Cell, plain: seq<seq<Cell>>, links: seq<Link>, code: string)
    requires Reads(cs, plain, links, None, code, None) && IsInline(c)
    ensures Reads(cs + [c], plain[|plain| - 1 := plain[|plain| - 1] + [c]], links, None, code, None)
  {
    hide Walk, Sel, Anchors;
    SelSnocHolds(cs, c);
  }

  lemma ReadDisplay(cs: seq<Cell>, c: Cell, plain: seq<seq<Cell>>, links: seq<Link>, begin: nat, code: string, display: seq<Cell>)
    requires Reads(cs, plain, links, Some(begin), code, Some(display)) && IsInline(c)
    ensures Reads(cs + [c], plain, links, Some(begin), code, Some(display + [c]))
  {
    hide Walk, Sel, Anchors;
    SelSnocHolds(cs, c);
  }

  lemma ReadNothing(cs: seq<Cell>, c: Cell, plain: seq<seq<Cell>>, links: seq<Link>,
                    begin: Option<nat>, code: string, display: Option<seq<Cell>>)
    requires Reads(cs, plain, links, begin, code, display)
    requires !IsInline(c) && !IsField(c) && !c.Open? && !c.Close?
    ensures Reads(cs + [c], plain, links, begin, code, display)
  {
    hide Walk, Sel, Anchors;
    SelSnocHolds(cs, c);
  }

  lemma ReadField(cs: seq<Cell>, c: Cell, plain: seq<seq<Cell>>, links: seq<Link>,
                  begin: Option<nat>, code: string, display: Option<seq<Cell>>,
                  begin': Option<nat>, code': string, display': Option<seq<Cell>>)
    requires Reads(cs, plain, links, begin, code, display) && IsField(c) && (begin'.None? ==> display'.None?)
    requires Step(Walk(cs), c) ==
             At(|links|, if begin'.None? then Plain else if display'.None? then Code(begin'.value, code') else Result(begin'.value))
    requires display'.Some? ==> display'.value == Sel(cs, Zone(|links|, true))
    ensures Reads(cs + [c], plain, links, begin', code', display')
  {
    hide Walk, Sel, Anchors, Step;
    SelSnocHolds(cs, c);
  }

  lemma ReadEnd(cs: seq<Cell>, c: Cell, plain: seq<seq<Cell>>, links: seq<Link>, begin: nat, code: string, display: seq<Cell>)
    requires Reads(cs, plain, links, Some(begin), code, Some(display))
    requires c.Found? && c.leaf == FieldChar("end") && c.place.direct
    ensures Reads(cs + [c], plain + [[]], links + [Link(Anchor(begin, c.id, None), display)], None, code, None)
  {
    hide Walk, Sel, Anchors, IsHyperlinkCode;
    SelSnocHolds(cs, c);
    NotYet(cs, Zone(|links| + 1, false));
  }

  /** One element of a run or other child; `ok` is false where the source gives the paragraph up. */
  method ReadElement(ghost cs: seq<Cell>, element: Cell, plain0: seq<seq<Cell>>, links0: seq<Link>,
                     begin0: Option<nat>, code0: string, display0: Option<seq<Cell>>)
    returns (plain: seq<seq<Cell>>, links: seq<Link>, begin: Option<nat>, code: string, display: Option<seq<Cell>>, ok: bool)
    requires Reads(cs, plain0, links0, begin0, code0, display0) && !element.Open? && !element.Close?
    ensures ok ==> Reads(cs + [element], plain, links, begin, code, display)
    ensures !ok ==> Walk(cs + [element]).Stuck?
  {
    hide Walk, Sel, Anchors, Reads;
    plain, links, begin, code, display, ok := plain0, links0, begin0, code0, display0, true;
    SelSnocHolds(cs, element);
    ReadsMode(cs, plain, links, begin, code, display);
    if !IsField(element) {
      if !IsInline(element) {
        ReadNothing(cs, element, plain, links, begin, code, display);
      } else if display.Some? {
        ReadDisplay(cs, element, plain, links, begin.value, code, display.value);
        display := Some(display.value + [element]);
      } else if begin.Some? {
        ok := false;
      } else {
        ReadPlain(cs, element, plain, links, code);
        plain := plain[|plain| - 1 := plain[|plain| - 1] + [element]];
      }
    } else if element.Nested? || !element.place.direct {
      ok := false;
    } else if element.leaf.Instruction? {
      if begin.None? || display.Some? {
        ok := false;
      } else {
        ReadField(cs, element, plain, links, begin, code, display, begin, code + element.leaf.code, display);
        code := code + element.leaf.code;
      }
    } else if element.leaf.kind == "begin" && begin.None? {
      ReadField(cs, element, plain, links, begin, code, display, Some(element.id), "", None);
      begin, code := Some(element.id), "";
    } else if element.leaf.kind == "separate" && begin.Some? && display.None? {
      if !IsHyperlinkCode(code) {
        ok := false;
      } else {
        NotYet(cs, Zone(|links|, true));
        ReadField(cs, element, plain, links, begin, code, display, begin, code, Some([]));
        display := Some([]);
      }
    } else if element.leaf.kind == "end" && begin.Some? && display.Some? {
      ReadEnd(cs, element, plain, links, begin.value, code, display.value);
      links := links + [Link(Anchor(begin.value, element.id, None), display.value)];
      plain := plain + [[]];
      begin, display := None, None;
    } else {
      ok := false;
    }
  }

  lemma ReadsMode(cs: seq<Cell>, plain: seq<seq<Cell>>, links: seq<Link>,
                  begin: Option<nat>, code: string, display: Option<seq<Cell>>)
    requires Reads(cs, plain, links, begin, code, display)
    ensures Walk(cs) == At(|links|, if begin.None? then Plain else if display.None? then Code(begin.value, code) else Result(begin.value))
    ensures (begin.None? ==> display.None?) && |plain| == |links| + 1
  {
    hide Walk, Sel, Anchors;
  }
}
