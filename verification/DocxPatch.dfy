/**
 Rewriting a paragraph in place (`_rewrite_items`, `_field_boundary_run`, `_insert_plain_run` and
 `_patch_paragraph`, src/oveo/docx.py).

 A layout is computed once and its element references (ids) stay in use while the tree changes. Each
 edit is shown to change the text of exactly one stretch.
 */
module DocxPatch {
  import opened DocxLinks
  import opened DocxTree
  import opened DocxLayout

  /** A paragraph: its child elements, and a bound on the identities in use. */
  datatype Para = Para(kids: seq<Node>, next: nat)

  // ----- the edits -----

  function Ids(items: seq<Cell>): set<nat> {
    set i | 0 <= i < |items| :: items[i].id
  }

  /** All items go; the new elements stand where the first one was. */
  function RewriteMap(items: seq<Cell>, elements: seq<Node>): map<nat, seq<Node>>
    requires items != []
  {
    map id | id in Ids(items) :: if id == items[0].id then elements else []
  }

  function RewriteItems(p: Para, items: seq<Cell>, value: string): Para
    requires AllInline(items) && items != []
  {
    if TextOf(items) == value then p
    else
      var elements := InlineElements(value, p.next);
      Para(SubstAll(p.kids, RewriteMap(items, elements)), p.next + |elements|)
  }

  /** The child of the paragraph that is the link element `id`. */
  function LocateLink(kids: seq<Node>, id: nat): (r: Option<nat>)
    ensures r.Some? ==> r.value < |kids| && kids[r.value].Element? && IsLinkTag(kids[r.value].tag) && kids[r.value].id == id
  {
    if kids == [] then None
    else if kids[0].Element? && IsLinkTag(kids[0].tag) && kids[0].id == id then Some(0)
    else match LocateLink(kids[1..], id)
      case None => None
      case Some(k) => Some(k + 1)
  }

  function IndexOfItem(ns: seq<Node>, id: nat): (r: Option<nat>)
    ensures r.Some? ==> r.value < |ns| && ns[r.value].Item? && ns[r.value].id == id
  {
    if ns == [] then None
    else if ns[0].Item? && ns[0].id == id then Some(0)
    else match IndexOfItem(ns[1..], id)
      case None => None
      case Some(k) => Some(k + 1)
  }

  /** The run among the paragraph's children that holds the field character `id`, and its index there. */
  function LocateField(kids: seq<Node>, id: nat): (r: Option<(nat, nat)>)
    ensures r.Some? ==> r.value.0 < |kids| && kids[r.value.0].Element? && kids[r.value.0].tag.Run?
    ensures r.Some? ==> r.value.1 < |kids[r.value.0].kids| && kids[r.value.0].kids[r.value.1].Item? && kids[r.value.0].kids[r.value.1].id == id
  {
    if kids == [] then None
    else if kids[0].Element? && kids[0].tag.Run? && IndexOfItem(kids[0].kids, id).Some? then
      Some((0, IndexOfItem(kids[0].kids, id).value))
    else match LocateField(kids[1..], id)
      case None => None
      case Some((k, j)) => Some((k + 1, j))
  }

  /** Moves the content of run `k` from index `j` on to a new run with the same properties. */
  function SplitRun(p: Para, k: nat, j: nat): Para
    requires k < |p.kids| && p.kids[k].Element? && p.kids[k].tag.Run? && j <= |p.kids[k].kids|
  {
    var run := p.kids[k];
    Para(p.kids[..k] + [Element(run.id, run.tag, run.kids[..j]), Element(p.next, run.tag, run.kids[j..])] + p.kids[k + 1..], p.next + 1)
  }

  /** The run that starts (`before`) or ends with the field character at `j` of run `k`. */
  function FieldBoundaryRun(p: Para, k: nat, j: nat, before: bool): (r: (Para, nat))
    requires k < |p.kids| && p.kids[k].Element? && p.kids[k].tag.Run? && j < |p.kids[k].kids|
    ensures r.1 < |r.0.kids|
  {
    if before then
      if j == 0 then (p, k) else (SplitRun(p, k, j), k + 1)
    else
      if j + 1 == |p.kids[k].kids| then (p, k) else (SplitRun(p, k, j + 1), k)
  }

  function InsertAt(p: Para, k: nat, run: Node): Para
    requires k <= |p.kids|
  {
    Para(p.kids[..k] + [run] + p.kids[k..], p.next)
  }

  /** A new run without properties directly before or after a link. */
  function InsertPlainRun(p: Para, value: string, anchor: Anchor, before: bool): Para {
    if value == "" then p else
    var elements := InlineElements(value, p.next);
    var run := Element(p.next + |elements|, Run(""), elements);
    var q := Para(p.kids, p.next + |elements| + 1);
    var id := if before then anchor.start else anchor.end;
    if anchor.tag.Some? then
      match LocateLink(q.kids, id)
      case None => q
      case Some(k) => InsertAt(q, if before then k else k + 1, run)
    else
      match LocateField(q.kids, id)
      case None => q
      case Some((k, j)) =>
        var (split, at) := FieldBoundaryRun(q, k, j, before);
        InsertAt(split, if before then at else at + 1, run)
  }

  /** One plain stretch of `_patch_paragraph`; None is the "no longer matches" error. */
  function PatchPlain(p: Para, layout: Layout, index: nat, value: string): Option<Para>
    requires index < |layout.plain| == |layout.links| + 1
    requires AllInline(layout.plain[index])
  {
    if layout.plain[index] != [] then Some(RewriteItems(p, layout.plain[index], value))
    else if index < |layout.links| then Some(InsertPlainRun(p, value, layout.links[index].anchor, true))
    else if layout.links != [] then Some(InsertPlainRun(p, value, layout.links[index - 1].anchor, false))
    else if value != "" then None
    else Some(p)
  }

  function PatchLink(p: Para, link: Link, display: string): Option<Para>
    requires AllInline(link.items)
  {
    if link.items == [] then None else Some(RewriteItems(p, link.items, display))
  }

  ghost predicate LayoutOk(layout: Layout) {
    && |layout.plain| == |layout.links| + 1
    && (forall i :: 0 <= i < |layout.plain| ==> AllInline(layout.plain[i]))
    && (forall i :: 0 <= i < |layout.links| ==> AllInline(layout.links[i].items))
  }

  /** The first `k` of all stretches rewritten: plain ones in order, then displays in order. */
  ghost function PatchSteps(p: Para, layout: Layout, parts: Parts, k: nat): Option<Para>
    requires LayoutOk(layout) && |parts.plain| == |parts.links| + 1 && |parts.links| == |layout.links|
    requires k <= |layout.plain| + |layout.links|
  {
    if k == 0 then Some(p)
    else
      var n := |layout.plain|;
      match PatchSteps(p, layout, parts, k - 1)
      case None => None
      case Some(q) =>
        if k <= n then PatchPlain(q, layout, k - 1, parts.plain[k - 1])
        else PatchLink(q, layout.links[k - 1 - n], parts.links[k - 1 - n].1)
  }

  /** `_patch_paragraph` on values. */
  ghost function Patch(p: Para, text: string): Option<Para> {
    match Parse(text)
    case None => None
    case Some(parts) =>
      match LayoutOf(Cells(p.kids))
      case None => None
      case Some(layout) =>
        if |layout.links| != |parts.links| then None
        else PatchSteps(p, layout, parts, |layout.plain| + |layout.links|)
  }

  lemma {:induction false} NoneStays(p: Para, layout: Layout, parts: Parts, k: nat, end: nat)
    requires LayoutOk(layout) && |parts.plain| == |parts.links| + 1 && |parts.links| == |layout.links|
    requires k <= end <= |layout.plain| + |layout.links|
    requires PatchSteps(p, layout, parts, k).None?
    ensures PatchSteps(p, layout, parts, end).None?
    decreases end - k
  {
    hide PatchPlain, PatchLink;
    if k < end {
      NoneStays(p, layout, parts, k, end - 1);
    }
  }
}
