/**
 The element tree of one paragraph (src/oveo/docx.py), after XML parsing.

 Every node carries an `id`, its identity: a layout refers to elements by id, as the source refers to
 them by reference, while the tree around them changes. `Cells` is the document-order walk over the
 elements whose nearest enclosing paragraph is this one.
 */
module DocxTree {
  import opened DocxLinks

  /** Run content shown as one character (`_INLINE_CHARACTERS`). */
  datatype Glyph = Tab | LineBreak | CarriageReturn | NoBreakHyphen | SoftHyphen

  datatype Leaf =
    | Text(value: string)          // w:t
    | Glyph(glyph: Glyph)
    | LayoutBreak(column: bool)    // w:br of type page or column
    | FieldChar(kind: string)      // w:fldChar
    | Instruction(code: string)    // w:instrText

  datatype Tag =
    | Run(format: string)          // w:r with its attributes and w:rPr
    | Hyperlink(rel: Option<string>, attributes: string)
    | SimpleField(code: string)    // w:fldSimple
    | Paragraph                    // a paragraph of a text box anchored here
    | AlternateContent
    | ParagraphProps               // w:pPr
    | Other(name: string)          // content controls, drawings, bookmarks, ...

  datatype Node =
    | Item(id: nat, leaf: Leaf)
    | Element(id: nat, tag: Tag, kids: seq<Node>)

  /** Where a leaf sits: its parent is a run, that run is a child of the paragraph, it is below AlternateContent. */
  datatype Place = Place(inRun: bool, direct: bool, alternate: bool)

  datatype Cell =
    | Found(id: nat, leaf: Leaf, place: Place)
    | Nested(id: nat, tag: Tag)    // a hyperlink or simple field below a child of the paragraph
    | Open(id: nat, tag: Tag)      // a hyperlink or simple field that is a child of the paragraph
    | Close(id: nat)

  predicate IsLinkTag(tag: Tag) {
    tag.Hyperlink? || tag.SimpleField?
  }

  /** Content that is not this paragraph's own text and that no rewrite enters. */
  predicate IsForeign(tag: Tag) {
    tag.Paragraph? || tag.ParagraphProps?
  }

  // ----- the document-order walk -----

  function Own(n: Node, place: Place): seq<Cell>
    decreases n, 1
  {
    match n
    case Item(id, leaf) => [Found(id, leaf, place)]
    case Element(id, tag, kids) =>
      if IsForeign(tag) then []
      else (if IsLinkTag(tag) then [Nested(id, tag)] else []) +
           OwnAll(kids, Place(tag.Run?, false, place.alternate || tag.AlternateContent?))
  }

  function OwnAll(ns: seq<Node>, place: Place): seq<Cell>
    decreases ns, 0
  {
    if ns == [] then [] else Own(ns[0], place) + OwnAll(ns[1..], place)
  }

  const TOP := Place(false, false, false)
  const IN_RUN := Place(true, true, false)

  function ChildCells(child: Node): seq<Cell> {
    if child.Element? && IsLinkTag(child.tag) then
      [Open(child.id, child.tag)] + OwnAll(child.kids, TOP) + [Close(child.id)]
    else if child.Element? && child.tag.Run? then OwnAll(child.kids, IN_RUN)
    else Own(child, TOP)
  }

  function Cells(kids: seq<Node>): seq<Cell> {
    if kids == [] then [] else ChildCells(kids[0]) + Cells(kids[1..])
  }

  // ----- the paragraph's own text -----

  /** `_is_inline_item`: text anywhere, characters only in runs (tab stops live elsewhere). */
  predicate IsInline(c: Cell) {
    c.Found? && (c.leaf.Text? || (c.leaf.Glyph? && c.place.inRun))
  }

  predicate IsBreak(c: Cell) {
    c.Found? && c.leaf.LayoutBreak?
  }

  function GlyphText(g: Glyph): char {
    match g
    case Tab => '\t'
    case LineBreak => '\n'
    case CarriageReturn => '\n'
    case NoBreakHyphen => '\U{2011}'
    case SoftHyphen => '\U{00ad}'
  }

  function ItemText(c: Cell): string
    requires IsInline(c)
  {
    match c.leaf
    case Text(value) => value
    case Glyph(g) => [GlyphText(g)]
  }

  predicate AllInline(cs: seq<Cell>) {
    forall i :: 0 <= i < |cs| ==> IsInline(cs[i])
  }

  function TextOf(cs: seq<Cell>): string
    requires AllInline(cs)
  {
    if cs == [] then "" else ItemText(cs[0]) + TextOf(cs[1..])
  }

  // ----- new run content for a text -----

  /** `_CHARACTER_ELEMENTS` */
  function GlyphFor(c: char): Option<Glyph> {
    if c == '\t' then Some(Tab)
    else if c == '\n' then Some(LineBreak)
    else if c == '\U{2011}' then Some(NoBreakHyphen)
    else if c == '\U{00ad}' then Some(SoftHyphen)
    else None
  }

  /** How many characters from the start need no element of their own. */
  function OrdinaryRun(value: string): (k: nat)
    ensures k <= |value|
    ensures forall i :: 0 <= i < k ==> GlyphFor(value[i]).None?
    ensures k < |value| ==> GlyphFor(value[k]).Some?
  {
    if value == "" || GlyphFor(value[0]).Some? then 0 else 1 + OrdinaryRun(value[1..])
  }

  /** No character needs an element of its own. */
  predicate Ordinary(s: string) {
    forall i :: 0 <= i < |s| ==> GlyphFor(s[i]).None?
  }

  /** Run content for `value`, numbered from `next`: maximal text nodes and restored characters. */
  function InlineElements(value: string, next: nat): (ns: seq<Node>)
    ensures forall i :: 0 <= i < |ns| ==>
              ns[i].Item? && ns[i].id == next + i && (ns[i].leaf.Glyph? || (ns[i].leaf.Text? && ns[i].leaf.value != "" && Ordinary(ns[i].leaf.value)))
    decreases |value|
  {
    if value == "" then []
    else if GlyphFor(value[0]).Some? then
      [Item(next, Glyph(GlyphFor(value[0]).value))] + InlineElements(value[1..], next + 1)
    else
      var k := OrdinaryRun(value);
      [Item(next, Text(value[..k]))] + InlineElements(value[k..], next + 1)
  }

  /** The flushing loop of `_inline_elements`. */
  method BuildInlineElements(value: string, next: nat) returns (elements: seq<Node>)
    ensures elements == InlineElements(value, next)
  {
    hide InlineElements, GlyphFor;
    elements := [];
    var pending := "";
    var i := 0;
    assert pending + value[i..] == value;
    while i < |value|
      invariant 0 <= i <= |value|
      invariant forall k :: 0 <= k < |pending| ==> GlyphFor(pending[k]).None?
      invariant InlineElements(value, next) == elements + InlineElements(pending + value[i..], next + |elements|)
    {
      var glyph := GlyphFor(value[i]);
      if glyph.None? {
        assert pending + value[i..] == pending + [value[i]] + value[i + 1..];
        pending := pending + [value[i]];
      } else {
        FlushStep(pending, value[i..], next + |elements|);
        if pending != "" {
          elements := elements + [Item(next + |elements|, Text(pending))];
          pending := "";
        }
        GlyphStep(value[i..], next + |elements|);
        elements := elements + [Item(next + |elements|, Glyph(glyph.value))];
        assert value[i..][1..] == pending + value[i + 1..];
      }
      i := i + 1;
    }
    FlushStep(pending, "", next + |elements|);
    assert pending + value[i..] == pending + "";
    if pending != "" {
      elements := elements + [Item(next + |elements|, Text(pending))];
    }
    NothingLeft(next + |elements|);
  }

  lemma NothingLeft(next: nat)
    ensures InlineElements("", next) == []
  {
  }

  lemma GlyphStep(value: string, next: nat)
    requires value != "" && GlyphFor(value[0]).Some?
    ensures InlineElements(value, next) ==
            [Item(next, Glyph(GlyphFor(value[0]).value))] + InlineElements(value[1..], next + 1)
  {
  }

  lemma FlushStep(pending: string, rest: string, next: nat)
    requires forall k :: 0 <= k < |pending| ==> GlyphFor(pending[k]).None?
    requires rest != "" ==> GlyphFor(rest[0]).Some?
    ensures var f := if pending == "" then 0 else 1;
            InlineElements(pending + rest, next) ==
            (if pending == "" then [] else [Item(next, Text(pending))]) + InlineElements(rest, next + f)
  {
    var s := pending + rest;
    if pending == "" {
      assert s == rest;
    } else {
      OrdinaryRunIs(s, |pending|);
      assert s[..|pending|] == pending && s[|pending|..] == rest;
    }
  }

  lemma {:induction false} OrdinaryRunIs(s: string, k: nat)
    requires k <= |s| && (forall i :: 0 <= i < k ==> GlyphFor(s[i]).None?)
    requires k < |s| ==> GlyphFor(s[k]).Some?
    ensures OrdinaryRun(s) == k
  {
    if k > 0 {
      OrdinaryRunIs(s[1..], k - 1);
    }
  }

  lemma {:induction false} ItemsCells(ns: seq<Node>, place: Place)
    requires forall i :: 0 <= i < |ns| ==> ns[i].Item?
    ensures |OwnAll(ns, place)| == |ns|
    ensures forall i :: 0 <= i < |ns| ==> OwnAll(ns, place)[i] == Found(ns[i].id, ns[i].leaf, place)
  {
    if ns != [] {
      ItemsCells(ns[1..], place);
      var tail := OwnAll(ns[1..], place);
      assert OwnAll(ns, place) == [Found(ns[0].id, ns[0].leaf, place)] + tail;
    }
  }

  /** Text nodes hold no character that has an element of its own. */
  predicate Crisp(cs: seq<Cell>) {
    forall i :: 0 <= i < |cs| && cs[i].Found? && cs[i].leaf.Text? ==> Ordinary(cs[i].leaf.value)
  }

  /** Text and characters, shown or not: what the field machine passes over. */
  predicate Quiet(cs: seq<Cell>) {
    forall i :: 0 <= i < |cs| ==> cs[i].Found? && (cs[i].leaf.Text? || cs[i].leaf.Glyph?)
  }

  /** The cells that show text. */
  function InlineOf(cs: seq<Cell>): (r: seq<Cell>)
    ensures AllInline(r)
  {
    if cs == [] then []
    else InlineOf(cs[..|cs| - 1]) + if IsInline(cs[|cs| - 1]) then [cs[|cs| - 1]] else []
  }

  lemma {:induction false} InlineOfAppend(a: seq<Cell>, b: seq<Cell>)
    ensures InlineOf(a + b) == InlineOf(a) + InlineOf(b)
    decreases |b|
  {
    hide IsInline;
    if b == [] {
      assert a + b == a;
    } else {
      assert (a + b)[..|a + b| - 1] == a + b[..|b| - 1];
      InlineOfAppend(a, b[..|b| - 1]);
    }
  }

  lemma InlineOfOne(c: Cell)
    ensures InlineOf([c]) == if IsInline(c) then [c] else []
  {
    assert [c][..0] == [];
  }

  lemma {:induction false} InlineOfInline(cs: seq<Cell>)
    requires AllInline(cs)
    ensures InlineOf(cs) == cs
  {
    hide IsInline;
    if cs != [] {
      InlineOfInline(cs[..|cs| - 1]);
      assert cs[..|cs| - 1] + [cs[|cs| - 1]] == cs;
    }
  }

  lemma {:induction false} InlineOfIn(cs: seq<Cell>, c: Cell)
    requires c in InlineOf(cs)
    ensures c in cs
  {
    hide IsInline;
    var a, last := cs[..|cs| - 1], cs[|cs| - 1];
    if c in InlineOf(a) {
      InlineOfIn(a, c);
    } else {
      assert c == last;
    }
  }

  /** The characters that need no element of their own. */
  function PlainOf(value: string): string {
    if value == "" then "" else PlainChar(value[0]) + PlainOf(value[1..])
  }

  function PlainChar(c: char): string {
    if GlyphFor(c).Some? then "" else [c]
  }

  /** What new content shows of its text: outside a run a character element shows nothing. */
  function Seen(value: string, inRun: bool): string {
    if inRun then value else PlainOf(value)
  }

  lemma {:induction false} PlainOfAppend(a: string, b: string)
    ensures PlainOf(a + b) == PlainOf(a) + PlainOf(b)
  {
    hide PlainChar, PlainOf;
    if a == "" {
      PlainOfNothing(a);
      assert a + b == b;
    } else {
      PlainOfAppend(a[1..], b);
      HeadAndTail(a, b);
      PlainOfHead(a);
      PlainOfHead(a + b);
      Regroup(PlainChar(a[0]), PlainOf(a[1..]), PlainOf(b));
    }
  }

  lemma Regroup<T>(h: seq<T>, x: seq<T>, y: seq<T>)
    ensures h + (x + y) == (h + x) + y
  {
  }

  lemma HeadAndTail<T>(a: seq<T>, b: seq<T>)
    requires a != []
    ensures (a + b)[0] == a[0] && (a + b)[1..] == a[1..] + b
  {
  }

  lemma PlainOfNothing(s: string)
    requires s == ""
    ensures PlainOf(s) == ""
  {
  }

  lemma PlainOfHead(s: string)
    requires s != ""
    ensures PlainOf(s) == PlainChar(s[0]) + PlainOf(s[1..])
  {
  }

  lemma {:induction false} PlainOfOrdinary(s: string)
    requires Ordinary(s)
    ensures PlainOf(s) == s
  {
    if s != "" {
      PlainOfOrdinary(s[1..]);
    }
  }

  /** Nothing is lost exactly in a run or without special characters. */
  lemma {:induction false} PlainOfShorter(s: string)
    ensures |PlainOf(s)| <= |s| && (PlainOf(s) == s <==> Ordinary(s))
  {
    if s != "" {
      PlainOfShorter(s[1..]);
      if Ordinary(s) {
        PlainOfOrdinary(s);
      } else if GlyphFor(s[0]).None? {
        assert !Ordinary(s[1..]);
      }
    }
  }

  /** New content is quiet and crisp, all in one place, and shows what can be seen of its text. */
  lemma NewElements(value: string, next: nat, place: Place)
    ensures var cs := OwnAll(InlineElements(value, next), place);
            && Quiet(cs) && Crisp(cs) && TextOf(InlineOf(cs)) == Seen(value, place.inRun)
            && (forall i :: 0 <= i < |cs| ==> cs[i].id >= next && cs[i].place == place && (IsInline(cs[i]) ==> ItemText(cs[i]) != ""))
  {
    hide InlineElements, OwnAll, TextOf, Ordinary, InlineOf;
    ItemsCells(InlineElements(value, next), place);
    ElementsRead(value, next, place);
  }

  lemma {:induction false} ElementsRead(value: string, next: nat, place: Place)
    ensures TextOf(InlineOf(OwnAll(InlineElements(value, next), place))) == Seen(value, place.inRun)
    decreases |value|
  {
    hide Ordinary, GlyphFor, InlineOf, InlineElements, OwnAll, TextOf, PlainOf;
    if value == "" {
      NothingReads(next, place);
    } else {
      var k := FirstPiece(value, next);
      ElementsRead(value[k..], next + 1, place);
      var ns := InlineElements(value, next);
      assert ns[1..] == InlineElements(value[k..], next + 1);
      var c := Found(next, ns[0].leaf, place);
      FirstReads(value, k, c);
      PlainOfAppend(value[..k], value[k..]);
      ConsReads(c, ns, place);
      assert value == value[..k] + value[k..];
    }
  }

  lemma NothingReads(next: nat, place: Place)
    ensures TextOf(InlineOf(OwnAll(InlineElements("", next), place))) == "" && PlainOf("") == ""
  {
  }

  /** The first element holds the first `k` characters. */
  lemma FirstPiece(value: string, next: nat) returns (k: nat)
    requires value != ""
    ensures 0 < k <= |value|
    ensures var leaf := if GlyphFor(value[0]).Some? then Glyph(GlyphFor(value[0]).value) else Text(value[..k]);
            InlineElements(value, next) == [Item(next, leaf)] + InlineElements(value[k..], next + 1)
    ensures if GlyphFor(value[0]).Some? then k == 1 else Ordinary(value[..k])
  {
    hide GlyphFor;
    k := if GlyphFor(value[0]).Some? then 1 else OrdinaryRun(value);
  }

  lemma NothingInline()
    ensures InlineOf([]) == []
  {
  }

  lemma FirstReads(value: string, k: nat, c: Cell)
    requires 0 < k <= |value| && c.Found?
    requires c.leaf == if GlyphFor(value[0]).Some? then Glyph(GlyphFor(value[0]).value) else Text(value[..k])
    requires if GlyphFor(value[0]).Some? then k == 1 else Ordinary(value[..k])
    ensures (if IsInline(c) then ItemText(c) else "") == Seen(value[..k], c.place.inRun)
  {
    if c.leaf.Text? {
      PlainOfOrdinary(value[..k]);
    } else {
      var first := value[..k];
      assert first == [value[0]] && first[1..] == "";
      assert PlainOf(first[1..]) == "" && PlainOf(first) == "";
    }
  }

  lemma ConsReads(c: Cell, ns: seq<Node>, place: Place)
    requires ns != [] && Own(ns[0], place) == [c]
    ensures TextOf(InlineOf(OwnAll(ns, place))) == (if IsInline(c) then ItemText(c) else "") + TextOf(InlineOf(OwnAll(ns[1..], place)))
  {
    hide Own, IsInline, ItemText, InlineOf;
    var tail := OwnAll(ns[1..], place);
    assert OwnAll(ns, place) == [c] + tail;
    InlineOfAppend([c], tail);
    InlineOfOne(c);
    if IsInline(c) {
      assert ([c] + InlineOf(tail))[1..] == InlineOf(tail);
    } else {
      assert [] + InlineOf(tail) == InlineOf(tail);
    }
  }

  // ----- the walk is a homomorphism -----

  lemma {:induction false} OwnAllAppend(a: seq<Node>, b: seq<Node>, place: Place)
    ensures OwnAll(a + b, place) == OwnAll(a, place) + OwnAll(b, place)
  {
    hide Own, OwnAll;
    if a == [] {
      OwnAllNothing(a, place);
      assert a + b == b;
    } else {
      OwnAllAppend(a[1..], b, place);
      HeadAndTail(a, b);
      OwnAllHead(a, place);
      OwnAllHead(a + b, place);
      Regroup(Own(a[0], place), OwnAll(a[1..], place), OwnAll(b, place));
    }
  }

  lemma OwnAllNothing(ns: seq<Node>, place: Place)
    requires ns == []
    ensures OwnAll(ns, place) == []
  {
  }

  lemma OwnAllHead(ns: seq<Node>, place: Place)
    requires ns != []
    ensures OwnAll(ns, place) == Own(ns[0], place) + OwnAll(ns[1..], place)
  {
  }

  lemma {:induction false} CellsAppend(a: seq<Node>, b: seq<Node>)
    ensures Cells(a + b) == Cells(a) + Cells(b)
  {
    hide ChildCells, Cells;
    if a == [] {
      CellsNothing(a);
      assert a + b == b;
    } else {
      CellsAppend(a[1..], b);
      HeadAndTail(a, b);
      CellsHead(a);
      CellsHead(a + b);
      Regroup(ChildCells(a[0]), Cells(a[1..]), Cells(b));
    }
  }

  lemma CellsNothing(ns: seq<Node>)
    requires ns == []
    ensures Cells(ns) == []
  {
  }

  lemma CellsHead(ns: seq<Node>)
    requires ns != []
    ensures Cells(ns) == ChildCells(ns[0]) + Cells(ns[1..])
  {
  }

  lemma {:induction false} TextOfAppend(a: seq<Cell>, b: seq<Cell>)
    requires AllInline(a) && AllInline(b)
    ensures AllInline(a + b) && TextOf(a + b) == TextOf(a) + TextOf(b)
  {
    hide ItemText, IsInline;
    if a == [] {
      assert a + b == b;
    } else {
      TextOfAppend(a[1..], b);
      assert (a + b)[0] == a[0] && (a + b)[1..] == a[1..] + b;
      assert ItemText(a[0]) + (TextOf(a[1..]) + TextOf(b)) == ItemText(a[0]) + TextOf(a[1..]) + TextOf(b);
    }
  }

  // ----- replacing leaves -----

  /** Replaces every own leaf whose id is a key of `m` by the given nodes, in the same parent. */
  function Subst(n: Node, m: map<nat, seq<Node>>): seq<Node>
    decreases n, 1
  {
    match n
    case Item(id, _) => if id in m then m[id] else [n]
    case Element(id, tag, kids) => if IsForeign(tag) then [n] else [Element(id, tag, SubstAll(kids, m))]
  }

  function SubstAll(ns: seq<Node>, m: map<nat, seq<Node>>): seq<Node>
    decreases ns, 0
  {
    if ns == [] then [] else Subst(ns[0], m) + SubstAll(ns[1..], m)
  }

  function CellSubst(c: Cell, m: map<nat, seq<Node>>): seq<Cell> {
    if c.Found? && c.id in m then OwnAll(m[c.id], c.place) else [c]
  }

  /** What a leaf replacement does to the walk. */
  function FlatSubst(cs: seq<Cell>, m: map<nat, seq<Node>>): seq<Cell> {
    if cs == [] then [] else FlatSubst(cs[..|cs| - 1], m) + CellSubst(cs[|cs| - 1], m)
  }

  lemma {:induction false} FlatSubstAppend(a: seq<Cell>, b: seq<Cell>, m: map<nat, seq<Node>>)
    ensures FlatSubst(a + b, m) == FlatSubst(a, m) + FlatSubst(b, m)
    decreases |b|
  {
    hide CellSubst;
    if b == [] {
      assert a + b == a;
    } else {
      var b', c := b[..|b| - 1], b[|b| - 1];
      FlatSubstAppend(a, b', m);
      assert (a + b)[..|a + b| - 1] == a + b' && (a + b)[|a + b| - 1] == c;
      assert FlatSubst(a, m) + FlatSubst(b', m) + CellSubst(c, m) == FlatSubst(a, m) + (FlatSubst(b', m) + CellSubst(c, m));
    }
  }

  lemma FlatSubstOne(c: Cell, m: map<nat, seq<Node>>)
    ensures FlatSubst([c], m) == CellSubst(c, m)
  {
    assert [c][..0] == [];
  }

  lemma {:induction false} OwnSubst(n: Node, place: Place, m: map<nat, seq<Node>>)
    ensures OwnAll(Subst(n, m), place) == FlatSubst(Own(n, place), m)
    decreases n, 1
  {
    match n
    case Item(id, leaf) =>
      FlatSubstOne(Found(id, leaf, place), m);
      OwnAllOne(n, place);
    case Element(id, tag, kids) =>
      if !IsForeign(tag) {
        var inner := Place(tag.Run?, false, place.alternate || tag.AlternateContent?);
        OwnAllSubst(kids, inner, m);
        OwnAllOne(Element(id, tag, SubstAll(kids, m)), place);
        FlatSubstOne(Nested(id, tag), m);
        FlatSubstAppend(if IsLinkTag(tag) then [Nested(id, tag)] else [], OwnAll(kids, inner), m);
      }
  }

  lemma OwnAllOne(n: Node, place: Place)
    ensures OwnAll([n], place) == Own(n, place)
  {
    assert [n][1..] == [];
  }

  lemma {:induction false} OwnAllSubst(ns: seq<Node>, place: Place, m: map<nat, seq<Node>>)
    ensures OwnAll(SubstAll(ns, m), place) == FlatSubst(OwnAll(ns, place), m)
    decreases ns, 0
  {
    if ns != [] {
      OwnSubst(ns[0], place, m);
      OwnAllSubst(ns[1..], place, m);
      OwnAllAppend(Subst(ns[0], m), SubstAll(ns[1..], m), place);
      FlatSubstAppend(Own(ns[0], place), OwnAll(ns[1..], place), m);
    }
  }

  /** Leaves are replaced by leaves only. */
  predicate ItemsOnly(m: map<nat, seq<Node>>) {
    forall id :: id in m ==> forall i :: 0 <= i < |m[id]| ==> m[id][i].Item?
  }

  /** Leaves walk the same as children of the paragraph. */
  lemma {:induction false} CellsOfItems(ns: seq<Node>)
    requires forall i :: 0 <= i < |ns| ==> ns[i].Item?
    ensures Cells(ns) == OwnAll(ns, TOP)
  {
    if ns != [] {
      CellsOfItems(ns[1..]);
    }
  }

  lemma LinkSubst(child: Node, m: map<nat, seq<Node>>)
    requires child.Element? && IsLinkTag(child.tag)
    ensures Cells(Subst(child, m)) == FlatSubst(ChildCells(child), m)
  {
    var open, inner, close := Open(child.id, child.tag), OwnAll(child.kids, TOP), Close(child.id);
    CellsOne(Element(child.id, child.tag, SubstAll(child.kids, m)));
    OwnAllSubst(child.kids, TOP, m);
    FlatSubstOne(open, m);
    FlatSubstOne(close, m);
    FlatSubstAppend([open], inner, m);
    FlatSubstAppend([open] + inner, [close], m);
  }

  lemma RunSubst(child: Node, m: map<nat, seq<Node>>)
    requires child.Element? && child.tag.Run?
    ensures Cells(Subst(child, m)) == FlatSubst(ChildCells(child), m)
  {
    CellsOne(Element(child.id, child.tag, SubstAll(child.kids, m)));
    OwnAllSubst(child.kids, IN_RUN, m);
  }

  lemma OtherSubst(child: Node, m: map<nat, seq<Node>>)
    requires child.Element? && !IsLinkTag(child.tag) && !child.tag.Run?
    ensures Cells(Subst(child, m)) == FlatSubst(ChildCells(child), m)
  {
    hide FlatSubst;
    var n := Subst(child, m)[0];
    CellsOne(n);
    OwnSubst(child, TOP, m);
    OwnAllOne(n, TOP);
  }

  lemma ChildSubst(child: Node, m: map<nat, seq<Node>>)
    requires ItemsOnly(m)
    ensures Cells(Subst(child, m)) == FlatSubst(ChildCells(child), m)
  {
    if child.Element? {
      hide Cells, Subst, FlatSubst, ChildCells;
      if IsLinkTag(child.tag) {
        LinkSubst(child, m);
      } else if child.tag.Run? {
        RunSubst(child, m);
      } else {
        OtherSubst(child, m);
      }
    } else {
      CellsOne(child);
      FlatSubstOne(Found(child.id, child.leaf, TOP), m);
      if child.id in m {
        CellsOfItems(m[child.id]);
      }
    }
  }

  lemma CellsOne(n: Node)
    ensures Cells([n]) == ChildCells(n)
  {
    assert [n][1..] == [];
  }

  /** Replacing leaves in the tree is replacing them in the walk. */
  lemma {:induction false} CellsSubst(kids: seq<Node>, m: map<nat, seq<Node>>)
    requires ItemsOnly(m)
    ensures Cells(SubstAll(kids, m)) == FlatSubst(Cells(kids), m)
  {
    hide ChildCells, CellSubst, Subst;
    if kids != [] {
      var head, tail := ChildCells(kids[0]), Cells(kids[1..]);
      ChildSubst(kids[0], m);
      CellsSubst(kids[1..], m);
      CellsAppend(Subst(kids[0], m), SubstAll(kids[1..], m));
      FlatSubstAppend(head, tail, m);
    }
  }
}
