/**
 The in-place operations on a paragraph element (`_rewrite_items`, `_field_boundary_run`, `_insert_plain_run`,
 `_patch_paragraph` and `render_docx`, src/oveo/docx.py), proved against the value functions.
 */
module DocxElement {
  import opened DocxLinks
  import opened DocxTree
  import opened DocxLayout
  import opened DocxPatch
  import opened DocxEdits
  import opened DocxRewrite
  import opened DocxDocument

  // ----- leaves and their places in the tree -----

  /** The paragraph's own leaves, in document order. */
  function LeafIds(ns: seq<Node>): seq<nat>
    decreases ns, 0
  {
    if ns == [] then [] else LeafIdsOf(ns[0]) + LeafIds(ns[1..])
  }

  function LeafIdsOf(n: Node): seq<nat>
    decreases n, 1
  {
    match n
    case Item(id, _) => [id]
    case Element(_, tag, kids) => if IsForeign(tag) then [] else LeafIds(kids)
  }

  /** `first` occurs once, and before all other leaves of `all`. */
  ghost predicate Leads(ids: seq<nat>, first: nat, all: set<nat>) {
    exists k :: LeadsAt(ids, first, all, k)
  }

  ghost predicate LeadsAt(ids: seq<nat>, first: nat, all: set<nat>, k: int) {
    && 0 <= k < |ids| && ids[k] == first && first in all
    && (forall j :: 0 <= j < k ==> ids[j] !in all)
    && (forall j :: k < j < |ids| ==> ids[j] != first)
  }

  /** The indices that lead from the paragraph to a leaf: its ancestors, and last its place in its parent. */
  function FindLeaf(ns: seq<Node>, id: nat): (path: Option<seq<nat>>)
    ensures path.Some? ==> path.value != []
    decreases ns
  {
    if ns == [] then None
    else
      var inside := match ns[0]
                    case Item(i, _) => if i == id then Some([]) else None
                    case Element(_, tag, kids) => if IsForeign(tag) then None else FindLeaf(kids, id);
      if inside.Some? then Some([0] + inside.value)
      else
        var later := FindLeaf(ns[1..], id);
        if later.None? then None else Some([later.value[0] + 1] + later.value[1..])
  }

  /** `parent.insert(position, node)` for the parent at the end of the path. */
  function InsertNode(ns: seq<Node>, path: seq<nat>, node: Node): seq<Node>
    decreases path
  {
    if path == [] || path[0] > |ns| then ns
    else if |path| == 1 then ns[..path[0]] + [node] + ns[path[0]..]
    else if path[0] == |ns| || ns[path[0]].Item? then ns
    else
      var e := ns[path[0]];
      ns[path[0] := Element(e.id, e.tag, InsertNode(e.kids, path[1..], node))]
  }

  /** `position + offset` */
  function Shifted(path: seq<nat>, k: nat): seq<nat>
    requires path != []
  {
    path[..|path| - 1] + [path[|path| - 1] + k]
  }

  // ----- removing -----

  function Gone(ids: set<nat>): map<nat, seq<Node>> {
    map id | id in ids :: []
  }

  function Full(all: set<nat>, first: nat, elements: seq<Node>): map<nat, seq<Node>> {
    map id | id in all :: if id == first then elements else []
  }

  lemma {:induction false} RemoveMore(ns: seq<Node>, ids: set<nat>, id: nat)
    ensures SubstAll(SubstAll(ns, Gone(ids)), map[id := []]) == SubstAll(ns, Gone(ids + {id}))
    decreases ns, 0
  {
    if ns != [] {
      hide Gone;
      RemoveMoreOf(ns[0], ids, id);
      RemoveMore(ns[1..], ids, id);
      SubstAllAppend(Subst(ns[0], Gone(ids)), SubstAll(ns[1..], Gone(ids)), map[id := []]);
    }
  }

  lemma {:induction false} RemoveMoreOf(n: Node, ids: set<nat>, id: nat)
    ensures SubstAll(Subst(n, Gone(ids)), map[id := []]) == Subst(n, Gone(ids + {id}))
    decreases n, 1
  {
    match n
    case Item(i, _) =>
      SubstAllOne(n, map[id := []]);
    case Element(i, tag, kids) =>
      SubstAllOne(n, map[id := []]);
      if !IsForeign(tag) {
        RemoveMore(kids, ids, id);
        SubstAllOne(Element(i, tag, SubstAll(kids, Gone(ids))), map[id := []]);
      }
  }

  lemma SubstAllOne(n: Node, m: map<nat, seq<Node>>)
    ensures SubstAll([n], m) == Subst(n, m)
  {
    assert [n][1..] == [];
  }

  lemma {:induction false} SubstAllAppend(a: seq<Node>, b: seq<Node>, m: map<nat, seq<Node>>)
    ensures SubstAll(a + b, m) == SubstAll(a, m) + SubstAll(b, m)
  {
    hide Subst, SubstAll;
    if a == [] {
      SubstAllNothing(a, m);
      assert a + b == b;
    } else {
      SubstAllAppend(a[1..], b, m);
      HeadAndTail(a, b);
      SubstAllHead(a, m);
      SubstAllHead(a + b, m);
      Regroup(Subst(a[0], m), SubstAll(a[1..], m), SubstAll(b, m));
    }
  }

  lemma SubstAllNothing(ns: seq<Node>, m: map<nat, seq<Node>>)
    requires ns == []
    ensures SubstAll(ns, m) == []
  {
  }

  lemma SubstAllHead(ns: seq<Node>, m: map<nat, seq<Node>>)
    requires ns != []
    ensures SubstAll(ns, m) == Subst(ns[0], m) + SubstAll(ns[1..], m)
  {
  }

  /** Leaves that are not mentioned stay. */
  lemma {:induction false} Unmentioned(ns: seq<Node>, m: map<nat, seq<Node>>, w: map<nat, seq<Node>>)
    requires forall j :: 0 <= j < |LeafIds(ns)| ==> (LeafIds(ns)[j] in m <==> LeafIds(ns)[j] in w) && (LeafIds(ns)[j] in m ==> m[LeafIds(ns)[j]] == w[LeafIds(ns)[j]])
    ensures SubstAll(ns, m) == SubstAll(ns, w)
    decreases ns, 0
  {
    if ns != [] {
      var a, b := LeafIdsOf(ns[0]), LeafIds(ns[1..]);
      assert forall j :: 0 <= j < |a| ==> a[j] == LeafIds(ns)[j];
      assert forall j :: 0 <= j < |b| ==> b[j] == LeafIds(ns)[|a| + j];
      if ns[0].Element? && !IsForeign(ns[0].tag) {
        Unmentioned(ns[0].kids, m, w);
      } else if ns[0].Item? {
        assert a[0] == ns[0].id;
      }
      Unmentioned(ns[1..], m, w);
    }
  }

  lemma {:induction false} NothingMentioned(ns: seq<Node>)
    ensures SubstAll(ns, map[]) == ns
    decreases ns
  {
    if ns != [] {
      NothingMentioned(ns[1..]);
      if ns[0].Element? && !IsForeign(ns[0].tag) {
        NothingMentioned(ns[0].kids);
      }
      assert [ns[0]] + ns[1..] == ns;
    }
  }

  lemma NothingGone(ns: seq<Node>)
    ensures SubstAll(ns, Gone(Ids([]))) == ns
  {
    NothingMentioned(ns);
    assert Gone(Ids([])) == map[];
  }

  lemma IdsSnoc(items: seq<Cell>, k: nat)
    requires k < |items|
    ensures Ids(items[..k + 1]) == Ids(items[..k]) + {items[k].id}
  {
    var a, b := items[..k + 1], items[..k];
    forall id
      ensures id in Ids(a) <==> id in Ids(b) + {items[k].id}
    {
      if id in Ids(a) {
        var i :| 0 <= i < |a| && a[i].id == id;
        assert i < k ==> b[i].id == id;
      }
      if id in Ids(b) {
        var i :| 0 <= i < |b| && b[i].id == id;
        assert a[i].id == id;
      }
      assert a[k].id == items[k].id;
    }
  }

  lemma GoneIsFull(all: set<nat>, first: nat)
    ensures Gone(all) == Full(all, first, [])
  {
  }

  lemma FullIsRewrite(items: seq<Cell>, elements: seq<Node>)
    requires items != []
    ensures Full(Ids(items), items[0].id, elements) == RewriteMap(items, elements)
  {
  }

  // ----- inserting -----

  lemma LeadsHead(a: seq<nat>, b: seq<nat>, first: nat, all: set<nat>)
    requires Leads(a + b, first, all)
    ensures first in a ==> Leads(a, first, all) && first !in b
    ensures first !in a ==> Leads(b, first, all) && forall j :: 0 <= j < |a| ==> a[j] !in all
  {
    var ids := a + b;
    var k :| LeadsAt(ids, first, all, k);
    assert forall j :: 0 <= j < |a| ==> a[j] == ids[j];
    assert forall j :: 0 <= j < |b| ==> b[j] == ids[|a| + j];
    if first in a {
      assert k < |a|;
      assert LeadsAt(a, first, all, k);
    } else {
      assert k >= |a|;
      assert LeadsAt(b, first, all, k - |a|);
    }
  }

  lemma {:induction false} LeafIsFound(ns: seq<Node>, first: nat, all: set<nat>)
    requires Leads(LeafIds(ns), first, all)
    ensures FindLeaf(ns, first).Some?
    decreases ns
  {
    hide Leads;
    LeadsSome(LeafIds(ns), first, all);
    LeadsHead(LeafIdsOf(ns[0]), LeafIds(ns[1..]), first, all);
    if first in LeafIdsOf(ns[0]) {
      if ns[0].Element? {
        LeafIsFound(ns[0].kids, first, all);
      }
    } else {
      LeafIsFound(ns[1..], first, all);
    }
  }

  lemma LeadsSome(ids: seq<nat>, first: nat, all: set<nat>)
    requires Leads(ids, first, all)
    ensures ids != []
  {
  }

  lemma {:induction false} NotFound(ns: seq<Node>, id: nat)
    requires id !in LeafIds(ns)
    ensures FindLeaf(ns, id).None?
    decreases ns
  {
    if ns != [] {
      if ns[0].Element? && !IsForeign(ns[0].tag) {
        NotFound(ns[0].kids, id);
      }
      NotFound(ns[1..], id);
    }
  }

  /** After the first leaf only removals happen, whatever is put in its place. */
  lemma TailSubst(ns: seq<Node>, all: set<nat>, first: nat, a: seq<Node>, b: seq<Node>)
    requires first !in LeafIds(ns)
    ensures SubstAll(ns, Full(all, first, a)) == SubstAll(ns, Full(all, first, b))
  {
    Unmentioned(ns, Full(all, first, a), Full(all, first, b));
  }

  /** Before the first leaf nothing happens. */
  lemma HeadSubst(n: Node, all: set<nat>, first: nat, a: seq<Node>)
    requires forall j :: 0 <= j < |LeafIdsOf(n)| ==> LeafIdsOf(n)[j] !in all
    ensures Subst(n, Full(all, first, a)) == [n]
  {
    if n.Element? && !IsForeign(n.tag) {
      var ids := LeafIds(n.kids);
      assert LeafIdsOf(n) == ids;
      assert forall j :: 0 <= j < |ids| ==> ids[j] !in Full(all, first, a);
      Unmentioned(n.kids, Full(all, first, a), map[]);
      NothingMentioned(n.kids);
    } else if n.Item? {
      assert LeafIdsOf(n)[0] == n.id;
    }
  }

  /** Inserting the next element at the shifted path continues the replacement of the first leaf. */
  lemma {:induction false} InsertMore(ns: seq<Node>, first: nat, all: set<nat>, done: seq<Node>, node: Node)
    requires Leads(LeafIds(ns), first, all) && FindLeaf(ns, first).Some?
    ensures InsertNode(SubstAll(ns, Full(all, first, done)), Shifted(FindLeaf(ns, first).value, |done|), node)
         == SubstAll(ns, Full(all, first, done + [node]))
    decreases ns
  {
    hide Leads, Full;
    LeadsSome(LeafIds(ns), first, all);
    LeadsHead(LeafIdsOf(ns[0]), LeafIds(ns[1..]), first, all);
    var m, w := Full(all, first, done), Full(all, first, done + [node]);
    if first !in LeafIdsOf(ns[0]) {
      HeadSubst(ns[0], all, first, done);
      HeadSubst(ns[0], all, first, done + [node]);
      if ns[0].Element? && !IsForeign(ns[0].tag) {
        NotFound(ns[0].kids, first);
      }
      LeafIsFound(ns[1..], first, all);
      InsertMore(ns[1..], first, all, done, node);
      InsertLater(ns[0], SubstAll(ns[1..], m), FindLeaf(ns[1..], first).value, |done|, node);
    } else {
      TailSubst(ns[1..], all, first, done, done + [node]);
      if ns[0].Item? {
        FirstInFull(all, first, done, LeafIds(ns));
        FirstInFull(all, first, done + [node], LeafIds(ns));
        var tail := SubstAll(ns[1..], m);
        assert FindLeaf(ns, first).value == [0];
        assert Shifted([0], |done|) == [|done|];
        assert (done + tail)[..|done|] == done && (done + tail)[|done|..] == tail;
      } else {
        LeafIsFound(ns[0].kids, first, all);
        InsertMore(ns[0].kids, first, all, done, node);
        InsertInside(ns[0], SubstAll(ns[0].kids, m), SubstAll(ns[1..], m), FindLeaf(ns[0].kids, first).value, |done|, node);
      }
    }
  }

  lemma FirstInFull(all: set<nat>, first: nat, done: seq<Node>, ids: seq<nat>)
    requires Leads(ids, first, all)
    ensures first in Full(all, first, done) && Full(all, first, done)[first] == done
  {
  }

  lemma InsertLater(n: Node, rest: seq<Node>, path: seq<nat>, k: nat, node: Node)
    requires path != []
    ensures InsertNode([n] + rest, Shifted([path[0] + 1] + path[1..], k), node) == [n] + InsertNode(rest, Shifted(path, k), node)
  {
    var long, short := Shifted([path[0] + 1] + path[1..], k), Shifted(path, k);
    assert long == [short[0] + 1] + short[1..];
    assert long[1..] == short[1..];
    if short[0] <= |rest| {
      if |short| == 1 {
        assert ([n] + rest)[..short[0] + 1] == [n] + rest[..short[0]];
        assert ([n] + rest)[short[0] + 1..] == rest[short[0]..];
      }
    }
  }

  lemma InsertInside(e: Node, kids: seq<Node>, rest: seq<Node>, path: seq<nat>, k: nat, node: Node)
    requires e.Element? && path != []
    ensures InsertNode([Element(e.id, e.tag, kids)] + rest, Shifted([0] + path, k), node)
         == [Element(e.id, e.tag, InsertNode(kids, Shifted(path, k), node))] + rest
  {
    assert Shifted([0] + path, k) == [0] + Shifted(path, k);
    assert ([0] + Shifted(path, k))[1..] == Shifted(path, k);
  }

  /** The paragraph element that `render_docx` edits in place. */
  class ParagraphElement {
    var kids: seq<Node>
    var next: nat

    constructor (p: Para)
      ensures Value() == p
    {
      kids, next := p.kids, p.next;
    }

    function Value(): Para
      reads this
    {
      Para(kids, next)
    }

    /**
     `_rewrite_items`: every item is removed from its own parent, then the new elements are inserted one after the
     other where the first item was.
     */
    method Rewrite(items: seq<Cell>, value: string)
      requires AllInline(items) && items != [] && Leads(LeafIds(kids), items[0].id, Ids(items))
      modifies this
      ensures Value() == RewriteItems(old(Value()), items, value)
    {
      hide SubstAll, InsertNode, FindLeaf, Leads, LeafIds, InlineElements;
      if TextOf(items) == value {
        return;
      }
      ghost var tree, all := kids, Ids(items);
      var first := items[0].id;
      LeafIsFound(kids, first, all);
      var path := FindLeaf(kids, first).value;
      NothingGone(kids);
      for k := 0 to |items|
        invariant kids == SubstAll(tree, Gone(Ids(items[..k]))) && next == old(next)
      {
        RemoveMore(tree, Ids(items[..k]), items[k].id);
        assert Ids(items[..k + 1]) == Ids(items[..k]) + {items[k].id} by {
          IdsSnoc(items, k);
        }
        kids := SubstAll(kids, map[items[k].id := []]);
      }
      assert items[..|items|] == items;
      var elements := BuildInlineElements(value, next);
      GoneIsFull(all, first);
      for k := 0 to |elements|
        invariant kids == SubstAll(tree, Full(all, first, elements[..k])) && next == old(next)
      {
        assert elements[..k + 1] == elements[..k] + [elements[k]];
        InsertMore(tree, first, all, elements[..k], elements[k]);
        kids := InsertNode(kids, Shifted(path, k), elements[k]);
      }
      assert elements[..|elements|] == elements;
      FullIsRewrite(items, elements);
      next := next + |elements|;
    }

    method BoundaryRun(k: nat, j: nat, before: bool) returns (at: nat)
      requires k < |kids| && kids[k].Element? && kids[k].tag.Run? && j < |kids[k].kids|
      modifies this
      ensures (Value(), at) == FieldBoundaryRun(old(Value()), k, j, before)
    {
      var run := kids[k];
      var cut := if before then j else j + 1;
      at := k;
      if (before && cut == 0) || (!before && cut == |run.kids|) {
        return;
      }
      kids := kids[..k] + [Element(run.id, run.tag, run.kids[..cut]), Element(next, run.tag, run.kids[cut..])] + kids[k + 1..];
      next := next + 1;
      if before {
        at := k + 1;
      }
    }

    method InsertRun(value: string, anchor: Anchor, before: bool)
      modifies this
      ensures Value() == InsertPlainRun(old(Value()), value, anchor, before)
    {
      hide FieldBoundaryRun, LocateLink, LocateField, InlineElements;
      if value == "" {
        return;
      }
      var elements := BuildInlineElements(value, next);
      var run := Element(next + |elements|, Run(""), elements);
      next := next + |elements| + 1;
      var id := if before then anchor.start else anchor.end;
      var at: nat;
      if anchor.tag.Some? {
        var found := LocateLink(kids, id);
        if found.None? {
          return;
        }
        at := found.value;
      } else {
        var found := LocateField(kids, id);
        if found.None? {
          return;
        }
        at := BoundaryRun(found.value.0, found.value.1, before);
      }
      var position := if before then at else at + 1;
      kids := kids[..position] + [run] + kids[position..];
    }

    /** `_patch_paragraph`: false is its error; the tree is then of no further use. */
    method PatchText(text: string) returns (ok: bool)
      requires Identified(Value())
      modifies this
      ensures ok == Patch(old(Value()), text).Some?
      ensures ok ==> Patch(old(Value()), text) == Some(Value())
    {
      hide InsertPlainRun, RewriteItems, LayoutOf, Parse, TextOf, Cells, Identified, Leads, LeafIds, PatchSteps;
      ghost var start := Value();
      var parsed := LinkParts(text);
      if parsed.None? {
        return false;
      }
      var parts := parsed.value;
      var laidOut := ParagraphLayout(kids);
      if laidOut.None? || |laidOut.value.links| != |parts.links| {
        return false;
      }
      var layout := laidOut.value;
      var n := |layout.plain|;
      var i := 0;
      FirstStep(start, layout, parts);
      while i < n
        invariant 0 <= i <= n && PatchSteps(start, layout, parts, i) == Some(Value())
      {
        var items, value := layout.plain[i], parts.plain[i];
        PlainPatch(start, layout, parts, i, Value());
        if items != [] {
          ItemsLead(start, layout, parts, i, Value());
          Rewrite(items, value);
        } else if i < |layout.links| {
          InsertRun(value, layout.links[i].anchor, true);
        } else if layout.links != [] {
          InsertRun(value, layout.links[i - 1].anchor, false);
        } else if value != "" {
          NoneStays(start, layout, parts, i + 1, n + |layout.links|);
          return false;
        }
        i := i + 1;
      }
      i := 0;
      while i < |layout.links|
        invariant 0 <= i <= |layout.links| && PatchSteps(start, layout, parts, n + i) == Some(Value())
      {
        LinkPatch(start, layout, parts, i, Value());
        if layout.links[i].items == [] {
          NoneStays(start, layout, parts, n + i + 1, n + |layout.links|);
          return false;
        }
        ItemsLead(start, layout, parts, n + i, Value());
        Rewrite(layout.links[i].items, parts.links[i].1);
        i := i + 1;
      }
      return true;
    }
  }

  lemma PlainPatch(p: Para, layout: Layout, parts: Parts, i: nat, q: Para)
    requires LayoutOk(layout) && |parts.plain| == |parts.links| + 1 && |parts.links| == |layout.links| && i < |layout.plain|
    requires PatchSteps(p, layout, parts, i) == Some(q)
    ensures PatchSteps(p, layout, parts, i + 1) == PatchPlain(q, layout, i, parts.plain[i])
  {
    hide PatchPlain;
  }

  lemma LinkPatch(p: Para, layout: Layout, parts: Parts, i: nat, q: Para)
    requires LayoutOk(layout) && |parts.plain| == |parts.links| + 1 && |parts.links| == |layout.links| && i < |layout.links|
    requires PatchSteps(p, layout, parts, |layout.plain| + i) == Some(q)
    ensures PatchSteps(p, layout, parts, |layout.plain| + i + 1) == PatchLink(q, layout.links[i], parts.links[i].1)
  {
    hide PatchLink;
  }

  // ----- the items of a stretch lead -----

  function FoundIds(cs: seq<Cell>): seq<nat> {
    if cs == [] then []
    else
      var c := cs[|cs| - 1];
      FoundIds(cs[..|cs| - 1]) + if c.Found? then [c.id] else []
  }

  lemma {:induction false} FoundIdsAppend(a: seq<Cell>, b: seq<Cell>)
    ensures FoundIds(a + b) == FoundIds(a) + FoundIds(b)
    decreases |b|
  {
    if b == [] {
      assert a + b == a;
    } else {
      assert (a + b)[..|a + b| - 1] == a + b[..|b| - 1];
      FoundIdsAppend(a, b[..|b| - 1]);
    }
  }

  lemma FoundIdsOne(c: Cell)
    ensures FoundIds([c]) == if c.Found? then [c.id] else []
  {
    assert [c][..0] == [];
  }

  lemma {:induction false} OwnLeaves(n: Node, place: Place)
    ensures FoundIds(Own(n, place)) == LeafIdsOf(n)
    decreases n, 1
  {
    match n
    case Item(id, leaf) =>
      FoundIdsOne(Found(id, leaf, place));
    case Element(id, tag, kids) =>
      if !IsForeign(tag) {
        var inner := Place(tag.Run?, false, place.alternate || tag.AlternateContent?);
        OwnAllLeaves(kids, inner);
        FoundIdsOne(Nested(id, tag));
        FoundIdsAppend(if IsLinkTag(tag) then [Nested(id, tag)] else [], OwnAll(kids, inner));
      }
  }

  lemma {:induction false} OwnAllLeaves(ns: seq<Node>, place: Place)
    ensures FoundIds(OwnAll(ns, place)) == LeafIds(ns)
    decreases ns, 0
  {
    if ns != [] {
      hide Own, LeafIdsOf, FoundIds;
      OwnLeaves(ns[0], place);
      OwnAllLeaves(ns[1..], place);
      FoundIdsAppend(Own(ns[0], place), OwnAll(ns[1..], place));
    } else {
      assert FoundIds([]) == [];
    }
  }

  lemma ChildLeaves(child: Node)
    ensures FoundIds(ChildCells(child)) == LeafIdsOf(child)
  {
    hide FoundIds, OwnAll, LeafIds;
    if child.Element? && IsLinkTag(child.tag) {
      var open, inner, close := Open(child.id, child.tag), OwnAll(child.kids, TOP), Close(child.id);
      OwnAllLeaves(child.kids, TOP);
      FoundIdsOne(open);
      FoundIdsOne(close);
      FoundIdsAppend([open] + inner, [close]);
      FoundIdsAppend([open], inner);
    } else if child.Element? && child.tag.Run? {
      OwnAllLeaves(child.kids, IN_RUN);
    } else {
      OwnLeaves(child, TOP);
    }
  }

  lemma {:induction false} LeavesAre(kids: seq<Node>)
    ensures FoundIds(Cells(kids)) == LeafIds(kids)
  {
    if kids != [] {
      hide ChildCells, LeafIdsOf, FoundIds;
      ChildLeaves(kids[0]);
      LeavesAre(kids[1..]);
      FoundIdsAppend(ChildCells(kids[0]), Cells(kids[1..]));
    } else {
      assert FoundIds([]) == [];
    }
  }

  /** The cell behind a leaf, and how many leaves come before it. */
  lemma {:induction false} FoundCell(cs: seq<Cell>, j: nat) returns (i: nat)
    requires j < |FoundIds(cs)|
    ensures i < |cs| && cs[i].Found? && cs[i].id == FoundIds(cs)[j] && |FoundIds(cs[..i])| == j
  {
    var a := cs[..|cs| - 1];
    if j < |FoundIds(a)| {
      i := FoundCell(a, j);
      assert a[..i] == cs[..i];
    } else {
      i := |a|;
      assert cs[..i] == a;
    }
  }

  lemma {:induction false} FoundIdsGrow(cs: seq<Cell>, i: nat, k: nat)
    requires i <= k <= |cs|
    ensures FoundIds(cs[..i]) <= FoundIds(cs[..k]) && (i < k && cs[i].Found? ==> |FoundIds(cs[..i])| < |FoundIds(cs[..k])|)
    ensures i < k && cs[i].Found? ==> FoundIds(cs[..k])[|FoundIds(cs[..i])|] == cs[i].id
  {
    if i < k {
      FoundIdsGrow(cs, i, k - 1);
      assert cs[..k][..k - 1] == cs[..k - 1];
    }
  }

  /** Where an item of a stretch is among the cells. */
  lemma {:induction false} SelIndex(cs: seq<Cell>, z: Zone, t: nat) returns (i: nat)
    requires t < |Sel(cs, z)|
    ensures i < |cs| && cs[i] == Sel(cs, z)[t] && cs[i].Found? && |Sel(cs[..i], z)| == t && |Sel(cs[..i + 1], z)| == t + 1
  {
    hide Walk, InZone;
    var a := cs[..|cs| - 1];
    if t < |Sel(a, z)| {
      i := SelIndex(a, z, t);
      assert a[..i] == cs[..i] && a[..i + 1] == cs[..i + 1];
    } else {
      i := |a|;
      assert cs[..i] == a && cs[..i + 1] == cs;
    }
  }

  lemma {:induction false} SelGrows(cs: seq<Cell>, z: Zone, i: nat, k: nat)
    requires i <= k <= |cs|
    ensures |Sel(cs[..i], z)| <= |Sel(cs[..k], z)|
  {
    hide Walk, InZone, IsInline;
    if i < k {
      SelGrows(cs, z, i, k - 1);
      assert cs[..k][..k - 1] == cs[..k - 1];
    }
  }

  lemma SelLeads(cs: seq<Cell>, z: Zone, n: nat)
    requires Unique(cs, n) && Sel(cs, z) != [] && forall i :: 0 <= i < |Sel(cs, z)| ==> Sel(cs, z)[i].id < n
    ensures Leads(FoundIds(cs), Sel(cs, z)[0].id, Ids(Sel(cs, z)))
  {
    hide Unique, Sel, FoundIds;
    var items, ids := Sel(cs, z), FoundIds(cs);
    var k := SelIndex(cs, z, 0);
    var at := |FoundIds(cs[..k])|;
    assert cs[..|cs|] == cs;
    FoundIdsGrow(cs, k, |cs|);
    forall j | 0 <= j < at
      ensures ids[j] !in Ids(items)
    {
      EarlierIsOther(cs, z, n, k, j);
    }
    forall j | at < j < |ids|
      ensures ids[j] != items[0].id
    {
      var i := FoundCell(cs, j);
      if cs[i].id == items[0].id {
        SameCell(cs, n, i, k);
      }
    }
    assert items[0].id in Ids(items);
    assert LeadsAt(ids, items[0].id, Ids(items), at);
  }

  lemma SameCell(cs: seq<Cell>, n: nat, i: nat, k: nat)
    requires Unique(cs, n) && i < |cs| && k < |cs| && cs[i].Found? && cs[k].Found? && cs[i].id == cs[k].id < n
    ensures i == k
  {
    hide Unique;
    if i <= k {
      SameIndex(cs, n, i, k);
    } else {
      SameIndex(cs, n, k, i);
    }
  }

  lemma EarlierIsOther(cs: seq<Cell>, z: Zone, n: nat, k: nat, j: nat)
    requires Unique(cs, n) && (forall i :: 0 <= i < |Sel(cs, z)| ==> Sel(cs, z)[i].id < n)
    requires k < |cs| && |Sel(cs[..k], z)| == 0 && j < |FoundIds(cs[..k])| <= |FoundIds(cs)|
    ensures FoundIds(cs)[j] !in Ids(Sel(cs, z))
  {
    hide Unique, Sel, FoundIds;
    var items := Sel(cs, z);
    var i := FoundCell(cs, j);
    if i >= k {
      FoundIdsGrow(cs, k, i);
    } else if cs[i].id in Ids(items) {
      var t :| 0 <= t < |items| && items[t].id == cs[i].id;
      var u := SelIndex(cs, z, t);
      SameCell(cs, n, i, u);
      SelGrows(cs, z, i + 1, k);
    }
  }

  /** The stretch about to be rewritten still leads its own leaves in the current tree. */
  lemma ItemsLead(p: Para, layout: Layout, parts: Parts, k: nat, q: Para)
    requires Identified(p) && LayoutOf(Cells(p.kids)) == Some(layout)
    requires |parts.plain| == |parts.links| + 1 && |parts.links| == |layout.links| && k < |layout.plain| + |layout.links|
    requires PatchSteps(p, layout, parts, k) == Some(q)
    ensures var items := if k < |layout.plain| then layout.plain[k] else layout.links[k - |layout.plain|].items;
            items != [] ==> Leads(LeafIds(q.kids), items[0].id, Ids(items))
  {
    hide Walk, Anchors, Unique, Sel, Cells, TextOf, Spots, PatchSteps, Leads, LeafIds, FoundIds, Written, SameLinks;
    var cs0, cs, links := Cells(p.kids), Cells(q.kids), |layout.links|;
    LayoutLinks(cs0);
    StepsProgress(p, layout, parts, k);
    var z := ZoneOf(links, k);
    var items := if k < |layout.plain| then layout.plain[k] else layout.links[k - |layout.plain|].items;
    assert items == Sel(cs0, z) == Sel(cs, z);
    if items != [] {
      OwnIds(cs0, z, p.next);
      SelLeads(cs, z, p.next);
      LeavesAre(q.kids);
    }
  }

  // ----- a document -----

  /** `render_docx` on the parsed body: every editable paragraph is patched in place. */
  method RenderBody(doc: seq<BodyPara>, rels: set<string>, rs: seq<Replacement>) returns (r: Result<seq<BodyPara>>)
    requires forall i :: 0 <= i < |doc| ==> Identified(doc[i].para)
    ensures r == Render(doc, rels, rs)
  {
    hide Identified, ExtractFirst, RenderFirst, Patch, ParagraphBlock, ValidReplacements, CheckReplacement, ReplacementError;
    var parsed, editable := ParseBody(doc, rels);
    if parsed.Err? {
      return Err(parsed.code);
    }
    var code := ValidateReplacements(parsed.value, rs);
    if code != "" {
      return Err(code);
    }
    var out := doc;
    ghost var k := 0;
    RenderNothing(doc, rels, rs);
    for j := 0 to |editable|
      invariant k <= |doc| && k == (if j == 0 then 0 else editable[j - 1] + 1)
      invariant |out| == |doc| && out[k..] == doc[k..] && RenderFirst(doc, rels, rs, k) == Ok(out[..k])
    {
      var i := editable[j];
      SkipsUntouched(doc, rels, rs, editable, j, k, i);
      UntouchedTail(out, doc, k, i);
      var element := new ParagraphElement(doc[i].para);
      var ok := element.PatchText(rs[j].text);
      RenderAt(doc, rels, rs, i, j);
      if !ok {
        RenderErrorStays(doc, rels, rs, i + 1, |doc|);
        return Err("invalid_docx_blocks");
      }
      PatchedOne(out, doc, i, BodyPara(element.Value(), doc[i].inCell));
      out := out[i := BodyPara(element.Value(), doc[i].inCell)];
      k := i + 1;
    }
    SkipsUntouched(doc, rels, rs, editable, |editable|, k, |doc|);
    UntouchedTail(out, doc, k, |doc|);
    assert out[..|doc|] == out;
    return Ok(out);
  }
}
