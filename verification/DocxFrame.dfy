/**
 What rendering leaves alone. The skeleton of a paragraph is everything but its own inline items, each
 piece of run content with the properties of its run: erasing the text and merging split runs.
 */
module DocxFrame {
  import opened DocxLinks
  import opened DocxTree
  import opened DocxLayout
  import opened DocxPatch
  import opened DocxEdits
  import opened DocxRewrite
  import opened DocxDocument
  import opened DocxRoundTrip
  import opened DocxRendering

  /** Run content under its run's properties, or any other child of the paragraph. */
  datatype Bone = InRun(run: Tag, node: Node) | Child(node: Node)

  /** A node without the paragraph's own inline items; text boxes keep theirs. */
  function Strip(n: Node, inRun: bool): seq<Node>
    decreases n, 1
  {
    match n
    case Item(_, leaf) => if leaf.Text? || (leaf.Glyph? && inRun) then [] else [n]
    case Element(id, tag, kids) => if IsForeign(tag) then [n] else [Element(id, tag, StripAll(kids, tag.Run?))]
  }

  function StripAll(ns: seq<Node>, inRun: bool): seq<Node>
    decreases ns, 0
  {
    if ns == [] then [] else Strip(ns[0], inRun) + StripAll(ns[1..], inRun)
  }

  function Wrap(run: Tag, ns: seq<Node>): seq<Bone> {
    seq(|ns|, i requires 0 <= i < |ns| => InRun(run, ns[i]))
  }

  function ChildBones(child: Node): seq<Bone> {
    if child.Element? && child.tag.Run? then Wrap(child.tag, StripAll(child.kids, true))
    else
      var ns := Strip(child, false);
      seq(|ns|, i requires 0 <= i < |ns| => Child(ns[i]))
  }

  function Skeleton(kids: seq<Node>): seq<Bone> {
    if kids == [] then [] else ChildBones(kids[0]) + Skeleton(kids[1..])
  }

  lemma {:induction false} StripAppend(a: seq<Node>, b: seq<Node>, inRun: bool)
    ensures StripAll(a + b, inRun) == StripAll(a, inRun) + StripAll(b, inRun)
  {
    hide Strip, StripAll;
    if a == [] {
      StripNothing(a, inRun);
      assert a + b == b;
    } else {
      StripAppend(a[1..], b, inRun);
      HeadAndTail(a, b);
      StripHead(a, inRun);
      StripHead(a + b, inRun);
      Regroup(Strip(a[0], inRun), StripAll(a[1..], inRun), StripAll(b, inRun));
    }
  }

  lemma StripNothing(ns: seq<Node>, inRun: bool)
    requires ns == []
    ensures StripAll(ns, inRun) == []
  {
  }

  lemma StripHead(ns: seq<Node>, inRun: bool)
    requires ns != []
    ensures StripAll(ns, inRun) == Strip(ns[0], inRun) + StripAll(ns[1..], inRun)
  {
  }

  lemma {:induction false} SkeletonAppend(a: seq<Node>, b: seq<Node>)
    ensures Skeleton(a + b) == Skeleton(a) + Skeleton(b)
  {
    hide ChildBones, Skeleton;
    if a == [] {
      SkeletonNothing(a);
      assert a + b == b;
    } else {
      SkeletonAppend(a[1..], b);
      HeadAndTail(a, b);
      SkeletonHead(a);
      SkeletonHead(a + b);
      Regroup(ChildBones(a[0]), Skeleton(a[1..]), Skeleton(b));
    }
  }

  lemma SkeletonNothing(ns: seq<Node>)
    requires ns == []
    ensures Skeleton(ns) == []
  {
  }

  lemma SkeletonHead(ns: seq<Node>)
    requires ns != []
    ensures Skeleton(ns) == ChildBones(ns[0]) + Skeleton(ns[1..])
  {
  }

  lemma SkeletonOne(n: Node)
    ensures Skeleton([n]) == ChildBones(n)
  {
    assert [n][1..] == [];
  }

  // ----- replacing items -----

  /** Only inline items are replaced, by content that leaves no trace in the skeleton. */
  ghost predicate Hits(cs: seq<Cell>, m: map<nat, seq<Node>>) {
    forall i :: 0 <= i < |cs| && cs[i].Found? && cs[i].id in m ==> IsInline(cs[i]) && StripAll(m[cs[i].id], cs[i].place.inRun) == []
  }

  predicate IsText(n: Node) {
    n.Item? && (n.leaf.Text? || n.leaf.Glyph?)
  }

  predicate AllText(ns: seq<Node>) {
    forall i :: 0 <= i < |ns| ==> IsText(ns[i])
  }

  /** In a run all text is erased; elsewhere text nodes are. */
  lemma {:induction false} TextStrips(ns: seq<Node>, inRun: bool)
    requires AllText(ns) && (inRun || forall i :: 0 <= i < |ns| ==> ns[i].leaf.Text?)
    ensures StripAll(ns, inRun) == []
  {
    if ns != [] {
      assert IsText(ns[0]);
      assert forall i :: 0 <= i < |ns[1..]| ==> ns[1..][i] == ns[i + 1];
      TextStrips(ns[1..], inRun);
    }
  }

  lemma HitsAppend(a: seq<Cell>, b: seq<Cell>, m: map<nat, seq<Node>>)
    requires Hits(a + b, m)
    ensures Hits(a, m) && Hits(b, m)
  {
    hide IsInline, StripAll;
    assert forall i :: 0 <= i < |a| ==> a[i] == (a + b)[i];
    assert forall i :: 0 <= i < |b| ==> b[i] == (a + b)[|a| + i];
  }

  lemma {:induction false} StripSubst(n: Node, place: Place, m: map<nat, seq<Node>>)
    requires Hits(Own(n, place), m)
    ensures StripAll(Subst(n, m), place.inRun) == Strip(n, place.inRun)
    decreases n, 1
  {
    match n
    case Item(id, leaf) =>
      assert Own(n, place)[0] == Found(id, leaf, place);
      if id !in m {
        StripOne(n, place.inRun);
      }
    case Element(id, tag, kids) =>
      if IsForeign(tag) {
        StripOne(n, place.inRun);
      } else {
        var inner := Place(tag.Run?, false, place.alternate || tag.AlternateContent?);
        HitsAppend(if IsLinkTag(tag) then [Nested(id, tag)] else [], OwnAll(kids, inner), m);
        StripAllSubst(kids, inner, m);
        StripOne(Element(id, tag, SubstAll(kids, m)), place.inRun);
      }
  }

  lemma StripOne(n: Node, inRun: bool)
    ensures StripAll([n], inRun) == Strip(n, inRun)
  {
    assert [n][1..] == [];
  }

  lemma {:induction false} StripAllSubst(ns: seq<Node>, place: Place, m: map<nat, seq<Node>>)
    requires Hits(OwnAll(ns, place), m)
    ensures StripAll(SubstAll(ns, m), place.inRun) == StripAll(ns, place.inRun)
    decreases ns, 0
  {
    if ns != [] {
      hide Strip, Own, Subst, Hits;
      HitsAppend(Own(ns[0], place), OwnAll(ns[1..], place), m);
      StripSubst(ns[0], place, m);
      StripAllSubst(ns[1..], place, m);
      StripAppend(Subst(ns[0], m), SubstAll(ns[1..], m), place.inRun);
    }
  }

  /** Leaves that are erased outside runs leave no bone. */
  lemma {:induction false} ErasedLeaves(ns: seq<Node>)
    requires (forall i :: 0 <= i < |ns| ==> ns[i].Item?) && StripAll(ns, false) == []
    ensures Skeleton(ns) == []
  {
    if ns != [] {
      ErasedLeaves(ns[1..]);
    }
  }

  lemma ChildKeepsBones(child: Node, m: map<nat, seq<Node>>)
    requires Hits(ChildCells(child), m) && ItemsOnly(m)
    ensures Skeleton(Subst(child, m)) == ChildBones(child)
  {
    match child
    case Item(id, leaf) =>
      assert Own(child, TOP)[0] == Found(id, leaf, TOP);
      if id in m {
        ErasedLeaves(m[id]);
      } else {
        SkeletonOne(child);
      }
    case Element(id, tag, kids) =>
      if IsForeign(tag) {
        SkeletonOne(child);
      } else {
        var place := if tag.Run? then IN_RUN else Place(false, false, tag.AlternateContent?);
        var inner := OwnAll(kids, place);
        if IsLinkTag(tag) {
          HitsAppend([Open(id, tag)] + inner, [Close(id)], m);
          HitsAppend([Open(id, tag)], inner, m);
        } else {
          assert ChildCells(child) == inner;
        }
        StripAllSubst(kids, place, m);
        SkeletonOne(Element(id, tag, SubstAll(kids, m)));
      }
  }

  lemma {:induction false} SubstKeepsSkeleton(kids: seq<Node>, m: map<nat, seq<Node>>)
    requires Hits(Cells(kids), m) && ItemsOnly(m)
    ensures Skeleton(SubstAll(kids, m)) == Skeleton(kids)
  {
    if kids != [] {
      hide ChildCells, ChildBones, Subst, ItemsOnly, Hits;
      HitsAppend(ChildCells(kids[0]), Cells(kids[1..]), m);
      ChildKeepsBones(kids[0], m);
      SubstKeepsSkeleton(kids[1..], m);
      SkeletonAppend(Subst(kids[0], m), SubstAll(kids[1..], m));
    }
  }

  lemma ElementsAreText(value: string, next: nat)
    ensures AllText(InlineElements(value, next))
    ensures Ordinary(value) ==> forall i :: 0 <= i < |InlineElements(value, next)| ==> InlineElements(value, next)[i].leaf.Text?
  {
    if Ordinary(value) {
      OneElement(value, next);
    }
  }

  lemma OneElement(value: string, next: nat)
    requires Ordinary(value)
    ensures InlineElements(value, next) == if value == "" then [] else [Item(next, Text(value))]
  {
    if value != "" {
      OrdinaryRunIs(value, |value|);
      assert value[|value|..] == "" && value[..|value|] == value;
    }
  }

  /** A safe rewrite leaves no trace in the skeleton. */
  lemma RewriteKeepsSkeleton(p: Para, z: Zone, value: string, n: nat)
    requires var cs := Cells(p.kids);
             && Unique(cs, n) && n <= p.next && Sel(cs, z) != []
             && (forall i :: 0 <= i < |Sel(cs, z)| ==> Sel(cs, z)[i].id < n) && SafeStretch(Sel(cs, z), value)
    ensures Skeleton(RewriteItems(p, Sel(Cells(p.kids), z), value).kids) == Skeleton(p.kids)
  {
    hide Sel, Cells, OwnAll, TextOf, Skeleton, SubstAll, IsInline, StripAll, InlineElements, Unique, Ordinary;
    var cs := Cells(p.kids);
    var items, elements := Sel(cs, z), InlineElements(value, p.next);
    if TextOf(items) != value {
      var m := RewriteMap(items, elements);
      ElementsAreText(value, p.next);
      NothingStrips();
      var j := SelectedAt(cs, z);
      TextStrips(elements, items[0].place.inRun);
      forall i | 0 <= i < |cs| && cs[i].Found? && cs[i].id in m
        ensures IsInline(cs[i]) && StripAll(m[cs[i].id], cs[i].place.inRun) == []
      {
        OnlyItems(cs, z, n, i);
        if cs[i].id == items[0].id {
          FirstIs(cs, z, n, i);
        }
      }
      SubstKeepsSkeleton(p.kids, m);
    }
  }

  lemma NothingStrips()
    ensures forall inRun :: StripAll([], inRun) == []
  {
  }

  /** The item that carries the first identity is the first item. */
  lemma FirstIs(cs: seq<Cell>, z: Zone, n: nat, i: nat)
    requires Unique(cs, n) && Sel(cs, z) != [] && i < |cs| && cs[i].Found? && cs[i].id == Sel(cs, z)[0].id < n
    ensures cs[i] == Sel(cs, z)[0]
  {
    hide Unique, Sel, IsInline;
    var j := SelectedAt(cs, z);
    if i <= j {
      SameIndex(cs, n, i, j);
    } else {
      SameIndex(cs, n, j, i);
    }
  }

  lemma SelectedAt(cs: seq<Cell>, z: Zone) returns (j: nat)
    requires Sel(cs, z) != []
    ensures j < |cs| && cs[j] == Sel(cs, z)[0] && cs[j].Found?
  {
    hide Sel, Spots, Breaks;
    j := SelectedIsInline(cs, z, 0);
  }

  // ----- inserting and splitting runs -----

  lemma SplitKeepsSkeleton(p: Para, k: nat, j: nat)
    requires k < |p.kids| && p.kids[k].Element? && p.kids[k].tag.Run? && j <= |p.kids[k].kids|
    ensures Skeleton(SplitRun(p, k, j).kids) == Skeleton(p.kids)
  {
    hide Skeleton, StripAll;
    var run, q := p.kids[k], SplitRun(p, k, j).kids;
    var left, right := q[k], q[k + 1];
    CutAt(p.kids, k);
    SkeletonAppend(p.kids[..k + 1], p.kids[k + 1..]);
    SkeletonAppend(p.kids[..k], [run]);
    SkeletonAppend(p.kids[..k] + [left, right], p.kids[k + 1..]);
    SkeletonAppend(p.kids[..k], [left, right]);
    SkeletonAppend([left], [right]);
    assert [left] + [right] == [left, right];
    SkeletonOne(run);
    SkeletonOne(left);
    SkeletonOne(right);
    StripAppend(run.kids[..j], run.kids[j..], true);
    assert run.kids[..j] + run.kids[j..] == run.kids;
    assert ChildBones(run) == ChildBones(left) + ChildBones(right);
  }

  lemma InsertKeepsSkeleton(p: Para, k: nat, run: Node)
    requires k <= |p.kids| && run.Element? && run.tag.Run? && AllText(run.kids)
    ensures Skeleton(InsertAt(p, k, run).kids) == Skeleton(p.kids)
  {
    hide Skeleton, StripAll;
    SkeletonAppend(p.kids[..k] + [run], p.kids[k..]);
    SkeletonAppend(p.kids[..k], [run]);
    SkeletonAppend(p.kids[..k], p.kids[k..]);
    assert p.kids[..k] + p.kids[k..] == p.kids;
    SkeletonOne(run);
    TextStrips(run.kids, true);
  }

  lemma PlainRunKeepsSkeleton(p: Para, value: string, anchor: Anchor, before: bool)
    ensures Skeleton(InsertPlainRun(p, value, anchor, before).kids) == Skeleton(p.kids)
  {
    hide Skeleton, InlineElements, LocateLink, LocateField, SplitRun, InsertAt;
    if value != "" {
      var elements := InlineElements(value, p.next);
      var run := Element(p.next + |elements|, DocxTree.Run(""), elements);
      var q := Para(p.kids, p.next + |elements| + 1);
      var id := if before then anchor.start else anchor.end;
      if anchor.tag.Some? {
        var found := LocateLink(q.kids, id);
        if found.Some? {
          InsertKeepsSkeleton(q, if before then found.value else found.value + 1, run);
        }
      } else {
        var found := LocateField(q.kids, id);
        if found.Some? {
          var (k, j) := found.value;
          SplitKeepsSkeleton(q, k, if before then j else j + 1);
          var (split, at) := FieldBoundaryRun(q, k, j, before);
          InsertKeepsSkeleton(split, if before then at else at + 1, run);
        }
      }
    }
  }

  // ----- characters outside runs -----

  /** A special character outside a run: it is not text, so the skeleton keeps it. */
  predicate IsLoose(c: Cell) {
    c.Found? && c.leaf.Glyph? && !c.place.inRun
  }

  function Loose(cs: seq<Cell>): nat {
    if cs == [] then 0 else Loose(cs[..|cs| - 1]) + if IsLoose(cs[|cs| - 1]) then 1 else 0
  }

  lemma {:induction false} LooseAppend(a: seq<Cell>, b: seq<Cell>)
    ensures Loose(a + b) == Loose(a) + Loose(b)
    decreases |b|
  {
    hide IsLoose;
    if b == [] {
      assert a + b == a;
    } else {
      assert (a + b)[..|a + b| - 1] == a + b[..|b| - 1];
      LooseAppend(a, b[..|b| - 1]);
    }
  }

  lemma LooseOne(c: Cell)
    ensures Loose([c]) == if IsLoose(c) then 1 else 0
  {
    assert [c][..0] == [];
  }

  /** Erasing text erases no loose character. */
  lemma {:induction false} LooseStrip(n: Node, place: Place)
    ensures Loose(OwnAll(Strip(n, place.inRun), place)) == Loose(Own(n, place))
    decreases n, 1
  {
    match n
    case Item(id, leaf) =>
      LooseOne(Found(id, leaf, place));
      OwnAllOne(n, place);
    case Element(id, tag, kids) =>
      OwnAllOne(n, place);
      if !IsForeign(tag) {
        var inner := Place(tag.Run?, false, place.alternate || tag.AlternateContent?);
        var stripped := StripAll(kids, tag.Run?);
        LooseStripAll(kids, inner);
        OwnAllOne(Element(id, tag, stripped), place);
        var head := if IsLinkTag(tag) then [Nested(id, tag)] else [];
        LooseAppend(head, OwnAll(kids, inner));
        LooseAppend(head, OwnAll(stripped, inner));
      }
  }

  lemma {:induction false} LooseStripAll(ns: seq<Node>, place: Place)
    ensures Loose(OwnAll(StripAll(ns, place.inRun), place)) == Loose(OwnAll(ns, place))
    decreases ns, 0
  {
    if ns != [] {
      hide Strip, Own, Loose;
      LooseStrip(ns[0], place);
      LooseStripAll(ns[1..], place);
      OwnAllAppend(Strip(ns[0], place.inRun), StripAll(ns[1..], place.inRun), place);
      LooseAppend(OwnAll(Strip(ns[0], place.inRun), place), OwnAll(StripAll(ns[1..], place.inRun), place));
      LooseAppend(Own(ns[0], place), OwnAll(ns[1..], place));
    }
  }

  /** The walk over one bone. */
  function BoneCells(b: Bone): seq<Cell> {
    match b
    case InRun(_, node) => Own(node, IN_RUN)
    case Child(node) => ChildCells(node)
  }

  function LooseBones(bones: seq<Bone>): nat {
    if bones == [] then 0 else Loose(BoneCells(bones[0])) + LooseBones(bones[1..])
  }

  lemma {:induction false} LooseBonesAppend(a: seq<Bone>, b: seq<Bone>)
    ensures LooseBones(a + b) == LooseBones(a) + LooseBones(b)
  {
    hide BoneCells, Loose;
    if a == [] {
      assert a + b == b;
    } else {
      LooseBonesAppend(a[1..], b);
      assert (a + b)[1..] == a[1..] + b;
    }
  }

  lemma {:induction false} LooseWrapped(run: Tag, ns: seq<Node>)
    ensures LooseBones(Wrap(run, ns)) == Loose(OwnAll(ns, IN_RUN))
  {
    hide Own, Loose;
    if ns == [] {
      NothingLoose();
    } else {
      LooseWrapped(run, ns[1..]);
      assert Wrap(run, ns)[1..] == Wrap(run, ns[1..]);
      LooseAppend(Own(ns[0], IN_RUN), OwnAll(ns[1..], IN_RUN));
    }
  }

  lemma NothingLoose()
    ensures Loose([]) == 0
  {
  }

  lemma LooseChild(child: Node)
    ensures LooseBones(ChildBones(child)) == Loose(ChildCells(child))
  {
    if child.Element? && child.tag.Run? {
      LooseWrapped(child.tag, StripAll(child.kids, true));
      LooseStripAll(child.kids, IN_RUN);
    } else if child.Element? && IsLinkTag(child.tag) {
      hide Loose, OwnAll, StripAll;
      var stripped := Element(child.id, child.tag, StripAll(child.kids, false));
      OneBone(stripped);
      LooseLink(child.id, child.tag, child.kids);
      LooseLink(child.id, child.tag, stripped.kids);
      LooseStripAll(child.kids, TOP);
    } else {
      LooseOther(child);
    }
  }

  lemma OneBone(node: Node)
    ensures LooseBones([Child(node)]) == Loose(ChildCells(node))
  {
    hide Loose, ChildCells;
    assert [Child(node)][1..] == [];
  }

  lemma LooseLink(id: nat, tag: Tag, kids: seq<Node>)
    requires IsLinkTag(tag)
    ensures Loose(ChildCells(Element(id, tag, kids))) == Loose(OwnAll(kids, TOP))
  {
    hide OwnAll;
    LooseOne(Open(id, tag));
    LooseOne(Close(id));
    hide Loose;
    LooseAppend([Open(id, tag)] + OwnAll(kids, TOP), [Close(id)]);
    LooseAppend([Open(id, tag)], OwnAll(kids, TOP));
  }

  lemma LooseOther(child: Node)
    requires !(child.Element? && (child.tag.Run? || IsLinkTag(child.tag)))
    ensures LooseBones(ChildBones(child)) == Loose(ChildCells(child))
  {
    hide Loose, OwnAll, StripAll;
    LooseStrip(child, TOP);
    var ns := Strip(child, false);
    if ns == [] {
      NothingOwn(TOP);
      NothingLoose();
    } else {
      assert ns == [ns[0]];
      OneBone(ns[0]);
      OwnAllOne(ns[0], TOP);
    }
  }

  /** The skeleton determines how many characters are loose. */
  lemma {:induction false} LooseInSkeleton(kids: seq<Node>)
    ensures LooseBones(Skeleton(kids)) == Loose(Cells(kids))
  {
    if kids == [] {
      NothingLoose();
    } else {
      hide ChildBones, ChildCells, Loose;
      LooseChild(kids[0]);
      LooseInSkeleton(kids[1..]);
      LooseBonesAppend(ChildBones(kids[0]), Skeleton(kids[1..]));
      LooseAppend(ChildCells(kids[0]), Cells(kids[1..]));
    }
  }

  // ----- edits and loose characters -----

  lemma {:induction false} LooseSubst(cs: seq<Cell>, m: map<nat, seq<Node>>)
    requires QuietMap(cs, m)
    ensures Loose(FlatSubst(cs, m)) >= Loose(cs)
    ensures forall i :: 0 <= i < |cs| && cs[i].Found? && cs[i].id in m ==> Loose(FlatSubst(cs, m)) >= Loose(cs) + Loose(OwnAll(m[cs[i].id], cs[i].place))
  {
    hide OwnAll, IsLoose, Loose, CellSubst, FlatSubst, Quiet, IsInline;
    if cs != [] {
      var a, c := cs[..|cs| - 1], cs[|cs| - 1];
      assert forall i :: 0 <= i < |a| ==> a[i] == cs[i];
      LooseSubst(a, m);
      LooseSnoc(cs, m);
      LooseCell(c, m);
    } else {
      LooseNothing(cs, m);
    }
  }

  lemma LooseNothing(cs: seq<Cell>, m: map<nat, seq<Node>>)
    requires cs == []
    ensures Loose(cs) == 0 && Loose(FlatSubst(cs, m)) == 0
  {
  }

  lemma LooseSnoc(cs: seq<Cell>, m: map<nat, seq<Node>>)
    requires cs != []
    ensures var a, c := cs[..|cs| - 1], cs[|cs| - 1];
            && Loose(cs) == Loose(a) + Loose([c])
            && Loose(FlatSubst(cs, m)) == Loose(FlatSubst(a, m)) + Loose(CellSubst(c, m))
  {
    hide CellSubst, Loose;
    var a, c := cs[..|cs| - 1], cs[|cs| - 1];
    LooseAppend(FlatSubst(a, m), CellSubst(c, m));
    LooseAppend(a, [c]);
    assert cs == a + [c];
  }

  lemma LooseCell(c: Cell, m: map<nat, seq<Node>>)
    requires c.Found? && c.id in m ==> IsInline(c)
    ensures if c.Found? && c.id in m then Loose([c]) == 0 && CellSubst(c, m) == OwnAll(m[c.id], c.place) else CellSubst(c, m) == [c]
  {
    hide OwnAll;
    LooseOne(c);
  }

  lemma {:induction false} SpecialIsLoose(value: string, next: nat, place: Place)
    requires !Ordinary(value) && !place.inRun
    ensures Loose(OwnAll(InlineElements(value, next), place)) > 0
    decreases |value|
  {
    hide InlineElements, OwnAll, GlyphFor, Loose;
    var k := FirstPiece(value, next);
    var ns := InlineElements(value, next);
    var rest := InlineElements(value[k..], next + 1);
    OwnAllAppend([ns[0]], rest, place);
    OwnAllOne(ns[0], place);
    assert ns == [ns[0]] + rest;
    LooseOne(Found(next, ns[0].leaf, place));
    LooseAppend(Own(ns[0], place), OwnAll(rest, place));
    if GlyphFor(value[0]).None? {
      assert !Ordinary(value[k..]) by {
        assert forall t :: 0 <= t < k ==> value[..k][t] == value[t];
        var i :| k <= i < |value| && GlyphFor(value[i]).Some?;
        assert value[k..][i - k] == value[i];
      }
      SpecialIsLoose(value[k..], next + 1, place);
    }
  }

  /** A rewrite loses no loose character, and an unsafe one adds some. */
  lemma RewriteLoose(p: Para, z: Zone, value: string, n: nat)
    requires var cs := Cells(p.kids);
             && Unique(cs, n) && n <= p.next && Sel(cs, z) != []
             && (forall i :: 0 <= i < |Sel(cs, z)| ==> Sel(cs, z)[i].id < n)
    ensures var cs, q := Cells(p.kids), RewriteItems(p, Sel(Cells(p.kids), z), value);
            && Loose(Cells(q.kids)) >= Loose(cs)
            && (!SafeStretch(Sel(cs, z), value) ==> Loose(Cells(q.kids)) > Loose(cs))
  {
    hide Sel, Cells, OwnAll, TextOf, SubstAll, InlineElements, Unique, Ordinary, Loose, FlatSubst, Quiet, IsInline;
    var cs := Cells(p.kids);
    var items, elements := Sel(cs, z), InlineElements(value, p.next);
    if TextOf(items) != value {
      var m := RewriteMap(items, elements);
      MapIsReplaceable(cs, z, value, p.next, n);
      CellsSubst(p.kids, m);
      LooseSubst(cs, m);
      var j := SelectedAt(cs, z);
      assert items[0].id in Ids(items);
      if !SafeStretch(items, value) {
        SpecialIsLoose(value, p.next, items[0].place);
      }
    }
  }

  lemma {:induction false} NoneLoose(x: seq<Cell>)
    requires forall i :: 0 <= i < |x| ==> !IsLoose(x[i])
    ensures Loose(x) == 0
  {
    if x != [] {
      NoneLoose(x[..|x| - 1]);
    }
  }

  lemma PlainRunLoose(p: Para, value: string, anchor: Anchor, before: bool)
    ensures Loose(Cells(InsertPlainRun(p, value, anchor, before).kids)) == Loose(Cells(p.kids))
  {
    hide Loose, Cells, Skeleton;
    PlainRunKeepsSkeleton(p, value, anchor, before);
    LooseInSkeleton(p.kids);
    LooseInSkeleton(InsertPlainRun(p, value, anchor, before).kids);
  }

  // ----- a whole paragraph -----

  ghost predicate SafeFirst(cs: seq<Cell>, parts: Parts, k: nat)
    requires Shaped(cs, parts)
  {
    forall j: nat :: j < k && j < 2 * |parts.links| + 1 ==> SafeStretch(Sel(cs, ZoneOf(|parts.links|, j)), ValueOf(parts, j))
  }

  ghost predicate Framed(p: Para, q: Para, parts: Parts, k: nat)
    requires Shaped(Cells(p.kids), parts)
  {
    && (SafeFirst(Cells(p.kids), parts, k) ==> Skeleton(q.kids) == Skeleton(p.kids))
    && Loose(Cells(q.kids)) >= Loose(Cells(p.kids))
    && (!SafeFirst(Cells(p.kids), parts, k) ==> Loose(Cells(q.kids)) > Loose(Cells(p.kids)))
  }

  lemma {:induction false} StepsFrame(p: Para, layout: Layout, parts: Parts, k: nat)
    requires Readable(p) && LayoutOf(Cells(p.kids)) == Some(layout) && Shaped(Cells(p.kids), parts)
    requires |parts.links| == |layout.links| && k <= |layout.plain| + |layout.links| && PatchSteps(p, layout, parts, k).Some?
    ensures Framed(p, PatchSteps(p, layout, parts, k).value, parts, k)
  {
    hide Walk, Anchors, Unique, Sel, Cells, TextOf, InsertPlainRun, RewriteItems, Skeleton, Spots, Loose, PatchSteps, SafeStretch, LayoutOf, Written, SameLinks;
    if k == 0 {
      NoSteps(p, layout, parts);
    } else {
      StepBefore(p, layout, parts, k);
      StepsFrame(p, layout, parts, k - 1);
      StepsProgress(p, layout, parts, k - 1);
      var q := PatchSteps(p, layout, parts, k - 1).value;
      var cs0, cs, links := Cells(p.kids), Cells(q.kids), |layout.links|;
      var z, value := ZoneOf(links, k - 1), ValueOf(parts, k - 1);
      assert Sel(cs, z) == Sel(cs0, z);
      OwnIds(cs0, z, p.next);
      StepIs(p, q, layout, parts, k);
      if Sel(cs0, z) != [] {
        RewriteLoose(q, z, value, p.next);
        if SafeStretch(Sel(cs0, z), value) {
          RewriteKeepsSkeleton(q, z, value, p.next);
        }
      } else {
        EmptyIsSafe(value);
        if k - 1 < links {
          PlainRunKeepsSkeleton(q, value, layout.links[k - 1].anchor, true);
          PlainRunLoose(q, value, layout.links[k - 1].anchor, true);
        } else if links > 0 {
          PlainRunKeepsSkeleton(q, value, layout.links[links - 1].anchor, false);
          PlainRunLoose(q, value, layout.links[links - 1].anchor, false);
        }
      }
      assert SafeFirst(cs0, parts, k) <==> SafeFirst(cs0, parts, k - 1) && SafeStretch(Sel(cs0, z), value);
    }
  }

  lemma StepBefore(p: Para, layout: Layout, parts: Parts, k: nat)
    requires LayoutOf(Cells(p.kids)) == Some(layout) && |parts.plain| == |parts.links| + 1 && |parts.links| == |layout.links|
    requires 0 < k <= |layout.plain| + |layout.links| && PatchSteps(p, layout, parts, k).Some?
    ensures PatchSteps(p, layout, parts, k - 1).Some?
  {
    hide LayoutOf, Cells, PatchPlain, PatchLink;
  }

  lemma EmptyIsSafe(value: string)
    ensures SafeStretch([], value)
  {
  }

  lemma NoSteps(p: Para, layout: Layout, parts: Parts)
    requires LayoutOf(Cells(p.kids)) == Some(layout) && Shaped(Cells(p.kids), parts) && |parts.links| == |layout.links|
    ensures PatchSteps(p, layout, parts, 0) == Some(p)
  {
  }

  lemma StepIs(p: Para, q: Para, layout: Layout, parts: Parts, k: nat)
    requires LayoutOf(Cells(p.kids)) == Some(layout)
    requires |parts.plain| == |parts.links| + 1 && |parts.links| == |layout.links| && 0 < k <= |layout.plain| + |layout.links|
    requires PatchSteps(p, layout, parts, k - 1) == Some(q) && PatchSteps(p, layout, parts, k).Some?
    ensures var z, links := ZoneOf(|layout.links|, k - 1), |layout.links|;
            var items, r := Sel(Cells(p.kids), z), PatchSteps(p, layout, parts, k).value;
            r == if items != [] then RewriteItems(q, items, ValueOf(parts, k - 1))
                 else if k - 1 < links then InsertPlainRun(q, parts.plain[k - 1], layout.links[k - 1].anchor, true)
                 else if links > 0 then InsertPlainRun(q, ValueOf(parts, k - 1), layout.links[links - 1].anchor, false)
                 else q
  {
    hide Walk, Anchors, Sel, Cells, TextOf, InsertPlainRun, RewriteItems;
  }

  lemma PatchShape(p: Para, text: string)
    requires Patch(p, text).Some?
    ensures Parse(text).Some? && Shaped(Cells(p.kids), Parse(text).value)
  {
    hide Walk, Cells, Parse, PatchSteps, Sel, Anchors;
    LayoutLinks(Cells(p.kids));
  }

  /**
   Rendering keeps everything but the text: field codes, link targets, layout breaks, drawings and text boxes stay,
   in order, in the same links and under the same run properties. It does so if and only if no stretch that starts
   outside a run is given a special character.
   */
  lemma PatchKeepsSkeleton(p: Para, text: string)
    requires Identified(p) && Patch(p, text).Some?
    ensures Parse(text).Some? && Shaped(Cells(p.kids), Parse(text).value)
    ensures Skeleton(Patch(p, text).value.kids) == Skeleton(p.kids) <==> Safe(Cells(p.kids), Parse(text).value)
  {
    hide Walk, Cells, Parse, Skeleton, PatchSteps, Sel, Anchors, Loose, SafeStretch, TextOf;
    PatchShape(p, text);
    var cs, parts := Cells(p.kids), Parse(text).value;
    var layout := LayoutOf(cs).value;
    LayoutLinks(cs);
    var end := |layout.plain| + |layout.links|;
    StepsFrame(p, layout, parts, end);
    LooseInSkeleton(p.kids);
    LooseInSkeleton(Patch(p, text).value.kids);
    assert SafeFirst(cs, parts, end) <==> Safe(cs, parts);
  }

  /** A rendered document: paragraphs without a block are untouched, the others keep their skeleton if safe. */
  lemma RenderKeepsSkeleton(doc: seq<BodyPara>, rels: set<string>, rs: seq<Replacement>, i: nat)
    requires Render(doc, rels, rs).Ok? && i < |doc| && Identified(doc[i].para)
    ensures |Render(doc, rels, rs).value| == |doc| && ExtractFirst(doc, rels, i).Ok?
    ensures var p, q, e := doc[i].para, Render(doc, rels, rs).value[i], ExtractFirst(doc, rels, i).value;
            if !IsKept(doc, rels, i) then q == doc[i]
            else
              && |e.blocks| < |rs| && Parse(rs[|e.blocks|].text).Some?
              && var parts := Parse(rs[|e.blocks|].text).value;
              && Shaped(Cells(p.kids), parts)
              && (Skeleton(q.para.kids) == Skeleton(p.kids) <==> Safe(Cells(p.kids), parts))
  {
    hide Skeleton, ParagraphBlock, Patch, ExtractFirst, RenderFirst, Identified, Parse, Safe, Shaped, BlockId, Kind, CheckReplacement;
    ExtractGrows(doc, rels, i, |doc|);
    ExtractGrows(doc, rels, i + 1, |doc|);
    RenderKeepsPrefix(doc, rels, rs, i + 1);
    RenderKeepsPrefix(doc, rels, rs, |doc|);
    StepOf(doc, rels, rs, i + 1);
    var now := Render(doc, rels, rs).value;
    assert now[..i + 1][i] == now[i];
    if IsKept(doc, rels, i) {
      PatchKeepsSkeleton(doc[i].para, rs[|ExtractFirst(doc, rels, i).value.blocks|].text);
    }
  }
}
