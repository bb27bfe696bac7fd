/**
 Whose text a paragraph reads and rewrites (`_belongs_to`, src/oveo/docx.py), said by ancestors: a plain walk over
 the whole tree records what encloses each leaf, and a leaf belongs to the paragraph if no other paragraph encloses
 it. Text boxes and paragraph properties are neither read nor changed.
 */
module DocxOwnText {
  import opened DocxLinks
  import opened DocxTree
  import opened DocxLayout
  import opened DocxPatch
  import opened DocxDocument

  // ----- the whole tree -----

  /** A leaf, or a hyperlink or simple field, with the elements that enclose it, outermost first. */
  datatype Spot =
    | LeafSpot(id: nat, leaf: Leaf, above: seq<Tag>)
    | LinkSpot(id: nat, tag: Tag, above: seq<Tag>)

  /** Everything below a node in document order, whoever it belongs to. */
  function Below(n: Node, above: seq<Tag>): seq<Spot>
    decreases n, 1
  {
    match n
    case Item(id, leaf) => [LeafSpot(id, leaf, above)]
    case Element(id, tag, kids) =>
      (if tag.Hyperlink? || tag.SimpleField? then [LinkSpot(id, tag, above)] else []) + BelowAll(kids, above + [tag])
  }

  function BelowAll(ns: seq<Node>, above: seq<Tag>): seq<Spot>
    decreases ns, 0
  {
    if ns == [] then [] else Below(ns[0], above) + BelowAll(ns[1..], above)
  }

  /** No enclosing element is a paragraph or paragraph properties. */
  predicate Belongs(above: seq<Tag>) {
    forall i :: 0 <= i < |above| ==> !above[i].Paragraph? && !above[i].ParagraphProps?
  }

  function PlaceOf(above: seq<Tag>): Place {
    Place(above != [] && above[|above| - 1].Run?, |above| == 1 && above[0].Run?, exists i :: 0 <= i < |above| && above[i].AlternateContent?)
  }

  function CellOf(s: Spot): Cell {
    match s
    case LeafSpot(id, leaf, above) => Found(id, leaf, PlaceOf(above))
    case LinkSpot(id, tag, above) => if above == [] then Open(id, tag) else Nested(id, tag)
  }

  /** The cells of the spots that belong to the paragraph. */
  function OwnCells(spots: seq<Spot>): seq<Cell> {
    if spots == [] then []
    else OwnCells(spots[..|spots| - 1]) + if Belongs(spots[|spots| - 1].above) then [CellOf(spots[|spots| - 1])] else []
  }

  /** The walk without the marks at the end of a link element. */
  function WithoutEnds(cs: seq<Cell>): seq<Cell> {
    if cs == [] then [] else WithoutEnds(cs[..|cs| - 1]) + if cs[|cs| - 1].Close? then [] else [cs[|cs| - 1]]
  }

  lemma {:induction false} OwnCellsAppend(a: seq<Spot>, b: seq<Spot>)
    ensures OwnCells(a + b) == OwnCells(a) + OwnCells(b)
    decreases |b|
  {
    hide Belongs, CellOf;
    if b == [] {
      assert a + b == a;
    } else {
      var b', s := b[..|b| - 1], b[|b| - 1];
      OwnCellsAppend(a, b');
      assert (a + b)[..|a + b| - 1] == a + b';
      Regroup(OwnCells(a), OwnCells(b'), if Belongs(s.above) then [CellOf(s)] else []);
    }
  }

  lemma {:induction false} WithoutEndsAppend(a: seq<Cell>, b: seq<Cell>)
    ensures WithoutEnds(a + b) == WithoutEnds(a) + WithoutEnds(b)
    decreases |b|
  {
    if b == [] {
      assert a + b == a;
    } else {
      var b', c := b[..|b| - 1], b[|b| - 1];
      WithoutEndsAppend(a, b');
      assert (a + b)[..|a + b| - 1] == a + b';
      Regroup(WithoutEnds(a), WithoutEnds(b'), if c.Close? then [] else [c]);
    }
  }

  lemma OwnCellsOne(s: Spot)
    ensures OwnCells([s]) == if Belongs(s.above) then [CellOf(s)] else []
  {
    assert [s][..0] == [];
  }

  lemma WithoutEndsOne(c: Cell)
    ensures WithoutEnds([c]) == if c.Close? then [] else [c]
  {
    assert [c][..0] == [];
  }

  lemma BelongsSnoc(above: seq<Tag>, tag: Tag)
    ensures Belongs(above + [tag]) <==> Belongs(above) && !tag.Paragraph? && !tag.ParagraphProps?
  {
    var all := above + [tag];
    assert forall i :: 0 <= i < |above| ==> all[i] == above[i];
    assert all[|above|] == tag;
  }

  // ----- nothing below another paragraph is read -----

  lemma {:induction false} ForeignBelow(n: Node, above: seq<Tag>)
    requires !Belongs(above)
    ensures OwnCells(Below(n, above)) == []
    decreases n, 1
  {
    hide Belongs, CellOf;
    match n
    case Item(id, leaf) => OwnCellsOne(LeafSpot(id, leaf, above));
    case Element(id, tag, kids) =>
      BelongsSnoc(above, tag);
      ForeignBelowAll(kids, above + [tag]);
      OwnCellsOne(LinkSpot(id, tag, above));
      OwnCellsAppend(if tag.Hyperlink? || tag.SimpleField? then [LinkSpot(id, tag, above)] else [], BelowAll(kids, above + [tag]));
  }

  lemma {:induction false} ForeignBelowAll(ns: seq<Node>, above: seq<Tag>)
    requires !Belongs(above)
    ensures OwnCells(BelowAll(ns, above)) == []
    decreases ns, 0
  {
    hide Belongs;
    if ns != [] {
      ForeignBelow(ns[0], above);
      ForeignBelowAll(ns[1..], above);
      OwnCellsAppend(Below(ns[0], above), BelowAll(ns[1..], above));
    }
  }

  // ----- what is read belongs to the paragraph, all of it -----

  /** Below a child of the paragraph. */
  lemma {:induction false} OwnBelow(n: Node, above: seq<Tag>)
    requires Belongs(above) && above != []
    ensures Own(n, PlaceOf(above)) == OwnCells(Below(n, above)) && WithoutEnds(Own(n, PlaceOf(above))) == Own(n, PlaceOf(above))
    decreases n, 1
  {
    match n
    case Item(id, leaf) =>
      OwnCellsOne(LeafSpot(id, leaf, above));
      WithoutEndsOne(Found(id, leaf, PlaceOf(above)));
    case Element(id, tag, kids) => OwnBelowElement(id, tag, kids, above);
  }

  lemma {:induction false} OwnBelowElement(id: nat, tag: Tag, kids: seq<Node>, above: seq<Tag>)
    requires Belongs(above) && above != []
    ensures var n := Element(id, tag, kids);
            Own(n, PlaceOf(above)) == OwnCells(Below(n, above)) && WithoutEnds(Own(n, PlaceOf(above))) == Own(n, PlaceOf(above))
    decreases kids, 2
  {
    hide Belongs, OwnCells, WithoutEnds;
    var link := if tag.Hyperlink? || tag.SimpleField? then [LinkSpot(id, tag, above)] else [];
    var cell := if IsLinkTag(tag) then [Nested(id, tag)] else [];
    var inner := above + [tag];
    NoSpots();
    OwnCellsOne(LinkSpot(id, tag, above));
    OwnCellsAppend(link, BelowAll(kids, inner));
    BelongsSnoc(above, tag);
    if IsForeign(tag) {
      ForeignBelowAll(kids, inner);
    } else {
      PlaceSnoc(above, tag);
      OwnBelowAll(kids, inner);
      WithoutEndsOne(Nested(id, tag));
      WithoutEndsAppend(cell, OwnAll(kids, PlaceOf(inner)));
    }
  }

  lemma NoSpots()
    ensures OwnCells([]) == [] && WithoutEnds([]) == []
  {
  }

  lemma PlaceSnoc(above: seq<Tag>, tag: Tag)
    ensures above != [] ==> PlaceOf(above + [tag]) == Place(tag.Run?, false, PlaceOf(above).alternate || tag.AlternateContent?)
    ensures PlaceOf([tag]) == Place(tag.Run?, tag.Run?, tag.AlternateContent?)
  {
    var all := above + [tag];
    assert forall i :: 0 <= i < |above| ==> all[i] == above[i];
    assert all[|above|] == tag && [tag][0] == tag;
    assert PlaceOf(all).alternate <==> PlaceOf(above).alternate || tag.AlternateContent?;
  }

  lemma {:induction false} OwnBelowAll(ns: seq<Node>, above: seq<Tag>)
    requires Belongs(above) && above != []
    ensures OwnAll(ns, PlaceOf(above)) == OwnCells(BelowAll(ns, above)) && WithoutEnds(OwnAll(ns, PlaceOf(above))) == OwnAll(ns, PlaceOf(above))
    decreases ns, 0
  {
    hide Belongs;
    if ns != [] {
      OwnBelow(ns[0], above);
      OwnBelowAll(ns[1..], above);
      OwnCellsAppend(Below(ns[0], above), BelowAll(ns[1..], above));
      WithoutEndsAppend(Own(ns[0], PlaceOf(above)), OwnAll(ns[1..], PlaceOf(above)));
    }
  }

  lemma OneBelongs(tag: Tag)
    ensures Belongs([]) && (Belongs([tag]) <==> !tag.Paragraph? && !tag.ParagraphProps?)
  {
    BelongsSnoc([], tag);
    assert [] + [tag] == [tag];
  }

  lemma ChildBelow(child: Node)
    ensures WithoutEnds(ChildCells(child)) == OwnCells(Below(child, []))
  {
    hide Belongs, OwnCells, WithoutEnds, PlaceOf;
    NoSpots();
    if child.Item? {
      ItemBelow(child);
    } else {
      var id, tag, kids := child.id, child.tag, child.kids;
      assert [] + [tag] == [tag];
      OneBelongs(tag);
      PlaceSnoc([], tag);
      OwnCellsOne(LinkSpot(id, tag, []));
      OwnCellsAppend(if tag.Hyperlink? || tag.SimpleField? then [LinkSpot(id, tag, [])] else [], BelowAll(kids, [tag]));
      if IsForeign(tag) {
        ForeignBelowAll(kids, [tag]);
      } else {
        OwnBelowAll(kids, [tag]);
        var inner := OwnAll(kids, PlaceOf([tag]));
        WithoutEndsOne(Open(id, tag));
        WithoutEndsOne(Close(id));
        WithoutEndsAppend([Open(id, tag)], inner);
        WithoutEndsAppend([Open(id, tag)] + inner, [Close(id)]);
        if IsLinkTag(tag) {
          assert [Open(id, tag)] + inner + [] == [Open(id, tag)] + inner;
        } else {
          assert [] + inner == inner && ChildCells(child) == inner;
        }
      }
    }
  }

  lemma ItemBelow(child: Node)
    requires child.Item?
    ensures WithoutEnds(ChildCells(child)) == OwnCells(Below(child, []))
  {
    OneBelongs(Paragraph);
    OwnCellsOne(LeafSpot(child.id, child.leaf, []));
    WithoutEndsOne(Found(child.id, child.leaf, TOP));
  }

  /**
   The walk that extraction and patching use finds exactly the paragraph's own leaves and links: everything in the
   tree that no other paragraph encloses, in document order, each with its surroundings.
   */
  lemma {:induction false} CellsAreOwn(kids: seq<Node>)
    ensures WithoutEnds(Cells(kids)) == OwnCells(BelowAll(kids, []))
  {
    hide ChildCells, Below, OwnCells, WithoutEnds;
    if kids == [] {
      NoSpots();
    } else {
      ChildBelow(kids[0]);
      CellsAreOwn(kids[1..]);
      OwnCellsAppend(Below(kids[0], []), BelowAll(kids[1..], []));
      WithoutEndsAppend(ChildCells(kids[0]), Cells(kids[1..]));
    }
  }

  // ----- text boxes and paragraph properties -----

  /** The outermost paragraphs and paragraph properties below a node, whole. */
  function Boxes(n: Node): seq<Node>
    decreases n, 1
  {
    match n
    case Item(_, _) => []
    case Element(_, tag, kids) => if tag.Paragraph? || tag.ParagraphProps? then [n] else BoxesAll(kids)
  }

  function BoxesAll(ns: seq<Node>): seq<Node>
    decreases ns, 0
  {
    if ns == [] then [] else Boxes(ns[0]) + BoxesAll(ns[1..])
  }

  lemma BoxesNothing(ns: seq<Node>)
    requires ns == []
    ensures BoxesAll(ns) == []
  {
  }

  lemma BoxesHead(ns: seq<Node>)
    requires ns != []
    ensures BoxesAll(ns) == Boxes(ns[0]) + BoxesAll(ns[1..])
  {
  }

  lemma {:induction false} BoxesAppend(a: seq<Node>, b: seq<Node>)
    ensures BoxesAll(a + b) == BoxesAll(a) + BoxesAll(b)
  {
    hide Boxes, BoxesAll;
    if a == [] {
      BoxesNothing(a);
      assert a + b == b;
    } else {
      BoxesAppend(a[1..], b);
      HeadAndTail(a, b);
      BoxesHead(a);
      BoxesHead(a + b);
      Regroup(Boxes(a[0]), BoxesAll(a[1..]), BoxesAll(b));
    }
  }

  lemma BoxesOne(n: Node)
    ensures BoxesAll([n]) == Boxes(n)
  {
    assert [n][1..] == [];
  }

  lemma {:induction false} ItemsHaveNoBoxes(ns: seq<Node>)
    requires forall i :: 0 <= i < |ns| ==> ns[i].Item?
    ensures BoxesAll(ns) == []
  {
    if ns != [] {
      ItemsHaveNoBoxes(ns[1..]);
    }
  }

  lemma {:induction false} SubstKeepsBoxes(n: Node, m: map<nat, seq<Node>>)
    requires ItemsOnly(m)
    ensures BoxesAll(Subst(n, m)) == Boxes(n)
    decreases n, 1
  {
    match n
    case Item(id, leaf) =>
      BoxesOne(n);
      if id in m {
        ItemsHaveNoBoxes(m[id]);
      }
    case Element(id, tag, kids) =>
      BoxesOne(n);
      if !IsForeign(tag) {
        SubstAllKeepsBoxes(kids, m);
        BoxesOne(Element(id, tag, SubstAll(kids, m)));
      }
  }

  lemma {:induction false} SubstAllKeepsBoxes(ns: seq<Node>, m: map<nat, seq<Node>>)
    requires ItemsOnly(m)
    ensures BoxesAll(SubstAll(ns, m)) == BoxesAll(ns)
    decreases ns, 0
  {
    if ns != [] {
      SubstKeepsBoxes(ns[0], m);
      SubstAllKeepsBoxes(ns[1..], m);
      BoxesAppend(Subst(ns[0], m), SubstAll(ns[1..], m));
    }
  }

  lemma RewriteKeepsBoxes(p: Para, items: seq<Cell>, value: string)
    requires AllInline(items) && items != []
    ensures BoxesAll(RewriteItems(p, items, value).kids) == BoxesAll(p.kids)
  {
    var elements := InlineElements(value, p.next);
    NewAreItems(value, p.next);
    SubstAllKeepsBoxes(p.kids, RewriteMap(items, elements));
  }

  lemma {:induction false} NewAreItems(value: string, next: nat)
    ensures forall i :: 0 <= i < |InlineElements(value, next)| ==> InlineElements(value, next)[i].Item?
    decreases |value|
  {
    if value != "" {
      hide InlineElements;
      var k := FirstPiece(value, next);
      NewAreItems(value[k..], next + 1);
    }
  }

  lemma SplitKeepsBoxes(p: Para, k: nat, j: nat)
    requires k < |p.kids| && p.kids[k].Element? && p.kids[k].tag.Run? && j <= |p.kids[k].kids|
    ensures BoxesAll(SplitRun(p, k, j).kids) == BoxesAll(p.kids)
  {
    hide Boxes, BoxesAll;
    var run := p.kids[k];
    var a, b := Element(run.id, run.tag, run.kids[..j]), Element(p.next, run.tag, run.kids[j..]);
    assert run.kids == run.kids[..j] + run.kids[j..];
    BoxesAppend(run.kids[..j], run.kids[j..]);
    RunBoxes(run);
    RunBoxes(a);
    RunBoxes(b);
    BoxesOne(a);
    BoxesOne(b);
    BoxesOne(run);
    BoxesAppend([a], [b]);
    assert [a] + [b] == [a, b];
    BoxesAround(p.kids[..k], [a, b], p.kids[k + 1..]);
    BoxesAround(p.kids[..k], [run], p.kids[k + 1..]);
    assert p.kids == p.kids[..k] + [run] + p.kids[k + 1..];
  }

  lemma RunBoxes(run: Node)
    requires run.Element? && run.tag.Run?
    ensures Boxes(run) == BoxesAll(run.kids)
  {
  }

  lemma BoxesAround(a: seq<Node>, x: seq<Node>, b: seq<Node>)
    ensures BoxesAll(a + x + b) == BoxesAll(a) + BoxesAll(x) + BoxesAll(b)
  {
    hide BoxesAll;
    BoxesAppend(a, x);
    BoxesAppend(a + x, b);
  }

  lemma InsertAtKeepsBoxes(p: Para, k: nat, run: Node)
    requires k <= |p.kids| && Boxes(run) == []
    ensures BoxesAll(InsertAt(p, k, run).kids) == BoxesAll(p.kids)
  {
    hide BoxesAll;
    BoxesOne(run);
    BoxesAround(p.kids[..k], [run], p.kids[k..]);
    BoxesAppend(p.kids[..k], p.kids[k..]);
    assert p.kids[..k] + p.kids[k..] == p.kids;
    assert BoxesAll(p.kids[..k]) + [] == BoxesAll(p.kids[..k]);
  }

  lemma InsertKeepsBoxes(p: Para, value: string, anchor: Anchor, before: bool)
    ensures BoxesAll(InsertPlainRun(p, value, anchor, before).kids) == BoxesAll(p.kids)
  {
    hide BoxesAll, LocateLink, LocateField, InlineElements;
    if value != "" {
      var elements := InlineElements(value, p.next);
      var run := Element(p.next + |elements|, DocxTree.Run(""), elements);
      var q := Para(p.kids, p.next + |elements| + 1);
      var id := if before then anchor.start else anchor.end;
      NewAreItems(value, p.next);
      ItemsHaveNoBoxes(elements);
      if anchor.tag.Some? {
        var k := LocateLink(q.kids, id);
        if k.Some? {
          InsertAtKeepsBoxes(q, if before then k.value else k.value + 1, run);
        }
      } else {
        var at := LocateField(q.kids, id);
        if at.Some? {
          var (k, j) := at.value;
          SplitKeepsBoxes(q, k, j);
          SplitKeepsBoxes(q, k, j + 1);
          var (split, n) := FieldBoundaryRun(q, k, j, before);
          InsertAtKeepsBoxes(split, if before then n else n + 1, run);
        }
      }
    }
  }

  lemma {:induction false} StepsKeepBoxes(p: Para, layout: Layout, parts: Parts, k: nat)
    requires LayoutOk(layout) && |parts.plain| == |parts.links| + 1 && |parts.links| == |layout.links|
    requires k <= |layout.plain| + |layout.links| && PatchSteps(p, layout, parts, k).Some?
    ensures BoxesAll(PatchSteps(p, layout, parts, k).value.kids) == BoxesAll(p.kids)
  {
    hide BoxesAll, InsertPlainRun, RewriteItems, AllInline;
    if k > 0 {
      StepsKeepBoxes(p, layout, parts, k - 1);
      var q, n := PatchSteps(p, layout, parts, k - 1).value, |layout.plain|;
      if k > n {
        RewriteKeepsBoxes(q, layout.links[k - 1 - n].items, parts.links[k - 1 - n].1);
      } else if layout.plain[k - 1] != [] {
        RewriteKeepsBoxes(q, layout.plain[k - 1], parts.plain[k - 1]);
      } else if k - 1 < |layout.links| {
        InsertKeepsBoxes(q, parts.plain[k - 1], layout.links[k - 1].anchor, true);
      } else if layout.links != [] {
        InsertKeepsBoxes(q, parts.plain[k - 1], layout.links[k - 2].anchor, false);
      }
    }
  }

  /** No patch changes a text box or paragraph properties, whatever their content and whatever the identities. */
  lemma PatchKeepsBoxes(p: Para, text: string)
    requires Patch(p, text).Some?
    ensures BoxesAll(Patch(p, text).value.kids) == BoxesAll(p.kids)
  {
    hide BoxesAll, PatchSteps, Parse, Walk, Sel, Anchors, Cells;
    var layout := LayoutOf(Cells(p.kids)).value;
    StepsKeepBoxes(p, layout, Parse(text).value, |layout.plain| + |layout.links|);
  }

  /** A rendered document has every text box and all paragraph properties of its template, paragraph by paragraph. */
  lemma {:induction false} RenderKeepsBoxes(doc: seq<BodyPara>, rels: set<string>, rs: seq<Replacement>, k: nat)
    requires k <= |doc| && RenderFirst(doc, rels, rs, k).Ok?
    ensures |RenderFirst(doc, rels, rs, k).value| == k
    ensures forall i :: 0 <= i < k ==> BoxesAll(RenderFirst(doc, rels, rs, k).value[i].para.kids) == BoxesAll(doc[i].para.kids)
  {
    hide BoxesAll, Patch, ExtractFirst, ParagraphBlock;
    if k > 0 {
      RenderKeepsBoxes(doc, rels, rs, k - 1);
      var e := ExtractFirst(doc, rels, k - 1).value;
      if ParagraphBlock(doc[k - 1].para, rels, e.number).Kept? {
        PatchKeepsBoxes(doc[k - 1].para, rs[|e.blocks|].text);
      }
    }
  }

  // ----- no element of a text box is read -----

  function NodeIds(n: Node): set<nat>
    decreases n, 1
  {
    match n
    case Item(id, _) => {id}
    case Element(id, _, kids) => {id} + AllIds(kids)
  }

  function AllIds(ns: seq<Node>): set<nat>
    decreases ns, 0
  {
    if ns == [] then {} else NodeIds(ns[0]) + AllIds(ns[1..])
  }

  /** No two elements of the tree share an identity. */
  predicate DistinctNode(n: Node)
    decreases n, 1
  {
    n.Element? ==> n.id !in AllIds(n.kids) && DistinctTree(n.kids)
  }

  predicate DistinctTree(ns: seq<Node>)
    decreases ns, 0
  {
    ns != [] ==> DistinctNode(ns[0]) && DistinctTree(ns[1..]) && NodeIds(ns[0]) !! AllIds(ns[1..])
  }

  lemma {:induction false} BoxIdsInside(ns: seq<Node>, box: Node)
    requires box in BoxesAll(ns)
    ensures NodeIds(box) <= AllIds(ns)
    decreases ns
  {
    if box in Boxes(ns[0]) {
      if ns[0].Element? && !(ns[0].tag.Paragraph? || ns[0].tag.ParagraphProps?) {
        BoxIdsInside(ns[0].kids, box);
      }
    } else {
      BoxIdsInside(ns[1..], box);
    }
  }

  lemma {:induction false} CellIdsInside(ns: seq<Node>, place: Place, c: Cell)
    requires c in OwnAll(ns, place)
    ensures c.id in AllIds(ns)
    decreases ns
  {
    if c in Own(ns[0], place) {
      if ns[0].Element? && !IsForeign(ns[0].tag) && !(IsLinkTag(ns[0].tag) && c == Nested(ns[0].id, ns[0].tag)) {
        CellIdsInside(ns[0].kids, Place(ns[0].tag.Run?, false, place.alternate || ns[0].tag.AlternateContent?), c);
      }
    } else {
      CellIdsInside(ns[1..], place, c);
    }
  }

  lemma {:induction false} OwnOutsideBoxes(ns: seq<Node>, place: Place, c: Cell, box: Node)
    requires DistinctTree(ns) && c in OwnAll(ns, place) && box in BoxesAll(ns)
    ensures c.id !in NodeIds(box)
    decreases ns
  {
    var n, rest := ns[0], ns[1..];
    if box in BoxesAll(rest) {
      BoxIdsInside(rest, box);
      if c in OwnAll(rest, place) {
        OwnOutsideBoxes(rest, place, c, box);
      } else {
        OwnInNode(n, place, c);
      }
    } else {
      BoxInNode(n, box);
      if c in OwnAll(rest, place) {
        CellIdsInside(rest, place, c);
      } else {
        var inner := Place(n.tag.Run?, false, place.alternate || n.tag.AlternateContent?);
        if c in OwnAll(n.kids, inner) {
          OwnOutsideBoxes(n.kids, inner, c, box);
        } else {
          BoxIdsInside(n.kids, box);
        }
      }
    }
  }

  lemma OwnInNode(n: Node, place: Place, c: Cell)
    requires c in Own(n, place)
    ensures c.id in NodeIds(n)
  {
    OwnAllOne(n, place);
    CellIdsInside([n], place, c);
    assert [n][1..] == [];
  }

  lemma BoxInNode(n: Node, box: Node)
    requires box in Boxes(n)
    ensures NodeIds(box) <= NodeIds(n)
  {
    BoxesOne(n);
    BoxIdsInside([n], box);
    assert [n][1..] == [];
  }

  /** No leaf or link that the paragraph reads is an element of a text box or of paragraph properties. */
  lemma {:induction false} BoxesAreNotRead(kids: seq<Node>, c: Cell, box: Node)
    requires DistinctTree(kids) && c in Cells(kids) && box in BoxesAll(kids)
    ensures c.id !in NodeIds(box)
  {
    var n, rest := kids[0], kids[1..];
    if box in BoxesAll(rest) {
      BoxIdsInside(rest, box);
      if c in Cells(rest) {
        BoxesAreNotRead(rest, c, box);
      } else {
        ChildIds(n, c);
      }
    } else {
      BoxInNode(n, box);
      if c in Cells(rest) {
        CellsInside(rest, c);
      } else {
        ChildOutside(n, c, box);
      }
    }
  }

  lemma ChildIds(n: Node, c: Cell)
    requires c in ChildCells(n)
    ensures c.id in NodeIds(n)
  {
    if n.Item? {
      OwnInNode(n, TOP, c);
    } else if IsLinkTag(n.tag) {
      if c in OwnAll(n.kids, TOP) {
        CellIdsInside(n.kids, TOP, c);
      }
    } else if n.tag.Run? {
      CellIdsInside(n.kids, IN_RUN, c);
    } else {
      OwnInNode(n, TOP, c);
    }
  }

  lemma {:induction false} CellsInside(kids: seq<Node>, c: Cell)
    requires c in Cells(kids)
    ensures c.id in AllIds(kids)
  {
    hide ChildCells;
    if c in ChildCells(kids[0]) {
      ChildIds(kids[0], c);
    } else {
      CellsInside(kids[1..], c);
    }
  }

  lemma ChildOutside(n: Node, c: Cell, box: Node)
    requires DistinctNode(n) && c in ChildCells(n) && box in Boxes(n)
    ensures c.id !in NodeIds(box)
  {
    OwnAllOne(n, TOP);
    BoxesOne(n);
    assert [n][1..] == [];
    if IsLinkTag(n.tag) {
      BoxIdsInside(n.kids, box);
      if c in OwnAll(n.kids, TOP) {
        OwnOutsideBoxes(n.kids, TOP, c, box);
      }
    } else if n.tag.Run? {
      OwnOutsideBoxes(n.kids, IN_RUN, c, box);
    } else {
      OwnOutsideBoxes([n], TOP, c, box);
    }
  }
}
