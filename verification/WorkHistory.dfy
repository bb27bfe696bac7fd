/**
 The versioned work history of a conversation (`_apply_state_operation`, src/oveo/generation.py): work items,
 their versions and the Word templates they are bound to. A step is one committed response.
 */
module WorkHistory {
  import opened GenerationStatus
  import opened Protocol
  import opened UnicodeText
  import Substitution
  import Doc = DocxDocument
  import Rendering = DocxRendering
  import Stored = DocxStored

  // ----- rows -----

  datatype Item = Item(thread: nat, active: bool)

  datatype Version = Version(item: nat, number: nat, parent: Option<nat>, content: Content)

  /** What a version records besides its place in the history. */
  datatype Content = Content(source: string, output: string, brief: string,
                             template: Option<nat>, blocks: Option<seq<Doc.Replacement>>)

  /** The tables; every id in use is below `next`. */
  datatype Db = Db(items: map<nat, Item>, versions: map<nat, Version>, next: nat)

  /** An uploaded Word document: its body paragraphs and hyperlink relationships. Uploads never change. */
  datatype Template = Template(body: seq<Doc.BodyPara>, rels: set<string>)

  type Uploads = map<nat, Template>

  /**
   One response: its conversation, the Word upload of its own turn, the conversation's latest Word upload, the
   decoded document and the templates parsed before the transaction.
   */
  datatype Response = Response(thread: nat, own: Option<nat>, latest: Option<nat>, document: Document,
                               prepared: map<nat, seq<Doc.Block>>)

  // ----- text operations -----

  function SeparatorText(s: Separator): string {
    match s
    case NoSeparator => ""
    case Space => " "
    case Line => "\n"
    case Paragraph => "\n\n"
  }

  function AppendText(base: string, addition: string, separator: Separator): string {
    base + SeparatorText(separator) + addition
  }

  /** The number of deliverable blocks and the last of them. */
  function Deliverables(blocks: seq<ContentBlock>): seq<string> {
    if blocks == [] then []
    else
      var last := blocks[|blocks| - 1];
      Deliverables(blocks[..|blocks| - 1]) + if last.kind.Deliverable? then [last.text] else []
  }

  function OutputEdits(rs: seq<Exact>): (edits: seq<Substitution.Replacement>)
    ensures |edits| == |rs|
    ensures forall k :: 0 <= k < |rs| ==> edits[k].anchor == rs[k].outputAnchor
  {
    if rs == [] then []
    else
      var last := rs[|rs| - 1];
      OutputEdits(rs[..|rs| - 1]) + [Substitution.Replacement(last.outputAnchor, last.outputReplacement)]
  }

  function SourceEdits(rs: seq<Exact>): (edits: seq<Substitution.Replacement>)
    ensures forall e <- edits :: exists k :: 0 <= k < |rs| && rs[k].source.Some? && e.anchor == rs[k].source.value.0
  {
    if rs == [] then []
    else
      var last := rs[|rs| - 1];
      SourceEdits(rs[..|rs| - 1])
      + if last.source.Some? then [Substitution.Replacement(last.source.value.0, last.source.value.1)] else []
  }

  /** The decoder refuses empty anchors. */
  predicate Decoded(state: StateOperation) {
    state.Replace? ==>
      forall k :: 0 <= k < |state.replacements| ==>
        state.replacements[k].outputAnchor != "" && (state.replacements[k].source.Some? ==> state.replacements[k].source.value.0 != "")
  }

  lemma DecodedIsAnchored(state: StateOperation)
    requires Decoded(state) && state.Replace?
    ensures Substitution.Anchored(OutputEdits(state.replacements)) && Substitution.Anchored(SourceEdits(state.replacements))
  {
    var edits := SourceEdits(state.replacements);
    forall k | 0 <= k < |edits|
      ensures edits[k].anchor != ""
    {
      assert edits[k] in edits;
    }
  }

  function CountWords(s: string): nat {
    if s == "" then 0
    else
      var n := |s| - 1;
      CountWords(s[..n]) + if !IsSpace(s[n]) && (n == 0 || IsSpace(s[n - 1])) then 1 else 0
  }

  // ----- what a response records -----

  function StateBlocks(state: StateOperation): Option<seq<BlockText>> {
    match state
    case Establish(_, _, blocks) => blocks
    case Replace(_, _, _, blocks) => blocks
    case Full(_, _, _, blocks) => blocks
    case _ => None
  }

  function AsReplacements(blocks: seq<BlockText>): (rs: seq<Doc.Replacement>)
    ensures |rs| == |blocks|
  {
    seq(|blocks|, i requires 0 <= i < |blocks| => Doc.Replacement(blocks[i].id, blocks[i].text))
  }

  predicate Extends(state: StateOperation) {
    state.Append? || state.Replace? || state.Full?
  }

  function AnchorError(o: Substitution.Outcome, side: string): string {
    match o
    case Missing => "state_missing_" + side + "_anchor"
    case Ambiguous => "state_ambiguous_" + side + "_anchor"
    case _ => "state_overlapping_" + side + "_anchors"
  }

  /** The establish branch: source, output, brief and template. */
  ghost function Established(r: Response, state: StateOperation, visible: string): (o: Doc.Result<Content>)
    requires state.Establish?
    ensures o.Ok? && o.value.template.Some? ==> o.value.template.value in r.prepared && StateBlocks(state).Some?
  {
    var docx := if r.own.Some? then r.own else if state.docxBlocks.Some? then r.latest else None;
    if docx.Some? then
      if state.docxBlocks.None? then Doc.Err("state_docx_blocks_missing")
      else if docx.value !in r.prepared then Doc.Err("state_docx_template_missing")
      else
        var plain := Doc.PlainText(Doc.BlockTexts(r.prepared[docx.value]));
        if state.source.Some? && state.source.value != plain then Doc.Err("state_docx_source_mismatch")
        else Doc.Ok(Content(plain, visible, state.brief, docx, None))
    else if state.docxBlocks.Some? then Doc.Err("state_docx_blocks_unexpected")
    else if state.source.None? then Doc.Err("state_source_missing")
    else Doc.Ok(Content(state.source.value, visible, state.brief, None, None))
  }

  /** The branch that extends a version: whether the operation may, and what it makes of the texts. */
  ghost function Extended(r: Response, state: StateOperation, visible: string, base: Version): (o: Doc.Result<Content>)
    requires Decoded(state) && Extends(state)
    ensures o.Ok? ==> o.value.template == base.content.template && state.baseVersion == base.number
    ensures o.Ok? && o.value.template.Some? ==> o.value.template.value in r.prepared && StateBlocks(state).Some?
  {
    var c := base.content;
    if state.baseVersion != base.number then Doc.Err("state_base_mismatch")
    else if c.template.Some? != c.blocks.Some? then Doc.Err("state_docx_base_invalid")
    else if r.own.Some? then Doc.Err("state_docx_requires_establish")
    else if c.template.Some? && state.Append? then Doc.Err("state_docx_append_unsupported")
    else if c.template.Some? && StateBlocks(state).None? then Doc.Err("state_docx_blocks_missing")
    else if c.template.Some? && c.template.value !in r.prepared then Doc.Err("state_docx_template_missing")
    else if c.template.None? && StateBlocks(state).Some? then Doc.Err("state_docx_blocks_unexpected")
    else Edited(state, visible, c)
  }

  ghost function Edited(state: StateOperation, visible: string, c: Content): (o: Doc.Result<Content>)
    requires Decoded(state) && Extends(state)
    ensures o.Ok? ==> o.value.template == c.template
  {
    var brief := if state.newBrief.Some? then state.newBrief.value else c.brief;
    match state
    case Append(_, addition, sourceSeparator, outputSeparator, outputAddition, _) =>
      var source := AppendText(c.source, addition, sourceSeparator);
      if outputAddition.None? && AppendText(c.output, "", outputSeparator) <= visible then Doc.Err("state_output_addition_missing")
      else
        var added := if outputAddition.Some? then outputAddition.value else visible;
        var output := AppendText(c.output, added, outputSeparator);
        if visible != added && visible != output then Doc.Err("state_deliverable_mismatch")
        else Doc.Ok(Content(source, output, brief, c.template, None))
    case Replace(_, rs, _, _) =>
      DecodedIsAnchored(state);
      var source := Substitution.Meaning(c.source, SourceEdits(rs));
      var output := Substitution.Meaning(c.output, OutputEdits(rs));
      if !source.Applied? then Doc.Err(AnchorError(source, "source"))
      else if !output.Applied? then Doc.Err(AnchorError(output, "output"))
      else if visible != output.text then Doc.Err("state_deliverable_mismatch")
      else Doc.Ok(Content(source.text, output.text, brief, c.template, None))
    case Full(_, source, _, _) =>
      Doc.Ok(Content(if source.Some? then source.value else c.source, visible, brief, c.template, None))
  }

  /** The checks every new version passes; a Word-backed version records its block map. */
  ghost function Checked(r: Response, state: StateOperation, maxWords: nat, c: Content): Doc.Result<Content>
    requires c.template.Some? ==> c.template.value in r.prepared && StateBlocks(state).Some?
  {
    var rs := if StateBlocks(state).Some? then AsReplacements(StateBlocks(state).value) else [];
    if c.template.Some? && !Doc.ValidReplacements(r.prepared[c.template.value], rs) then Doc.Err(Doc.ReplacementError(r.prepared[c.template.value], rs))
    else if c.template.Some? && c.output != Doc.PlainText(Doc.ReplacementTexts(rs)) then Doc.Err("state_docx_output_mismatch")
    else if IsBlank(c.source) || IsBlank(c.output) || c.brief == "" then Doc.Err("invalid_canonical_state")
    else if CountWords(c.source) > maxWords then Doc.Err("state_source_word_limit")
    else Doc.Ok(c.(blocks := if c.template.Some? then Some(rs) else None))
  }

  // ----- the tables -----

  predicate IsActiveItem(db: Db, thread: nat, i: nat) {
    i in db.items && db.items[i] == Item(thread, true)
  }

  /** The newest version of an item. */
  ghost predicate IsNewest(db: Db, i: nat, v: nat) {
    && v in db.versions && db.versions[v].item == i
    && forall w <- db.versions :: db.versions[w].item == i ==> db.versions[w].number <= db.versions[v].number
  }

  /** The newest version of a conversation's active item. */
  ghost predicate IsCurrent(db: Db, thread: nat, v: nat) {
    v in db.versions && IsActiveItem(db, thread, db.versions[v].item) && IsNewest(db, db.versions[v].item, v)
  }

  ghost function Current(db: Db, thread: nat): Option<nat> {
    if v :| IsCurrent(db, thread, v) then Some(v) else None
  }

  /** A new item takes over the conversation, with its first version. */
  function AddItem(db: Db, thread: nat, c: Content): Db {
    var items := map i | i in db.items :: if db.items[i].thread == thread then Item(thread, false) else db.items[i];
    Db(items[db.next := Item(thread, true)],
       db.versions[db.next + 1 := Version(db.next, 1, None, c)],
       db.next + 2)
  }

  function AddVersion(db: Db, v: nat, c: Content): Db
    requires v in db.versions
  {
    var base := db.versions[v];
    db.(versions := db.versions[db.next := Version(base.item, base.number + 1, Some(v), c)], next := db.next + 1)
  }

  /** `_apply_state_operation`; an error rolls the transaction back. */
  ghost function Apply(maxWords: nat, db: Db, r: Response): (o: Doc.Result<Db>)
    requires Decoded(r.document.state)
  {
    var state, shown := r.document.state, Deliverables(r.document.blocks);
    if state.NoState? then Doc.Ok(db)
    else if |shown| != 1 then Doc.Err("state_deliverable_count_mismatch")
    else if state.Establish? then
      match Established(r, state, shown[0])
      case Err(code) => Doc.Err(code)
      case Ok(c) =>
        (match Checked(r, state, maxWords, c)
         case Err(code) => Doc.Err(code)
         case Ok(checked) => Doc.Ok(AddItem(db, r.thread, checked)))
    else
      var current := Current(db, r.thread);
      if current.None? then Doc.Err("state_base_missing")
      else
        match Extended(r, state, shown[0], db.versions[current.value])
        case Err(code) => Doc.Err(code)
        case Ok(c) =>
          match Checked(r, state, maxWords, c)
          case Err(code) => Doc.Err(code)
          case Ok(checked) => Doc.Ok(AddVersion(db, current.value, checked))
  }

  /** Deleting a conversation deletes its items and their versions. */
  function DeleteThread(db: Db, thread: nat): Db {
    Db(map i | i in db.items && db.items[i].thread != thread :: db.items[i],
       map v | v in db.versions && !(db.versions[v].item in db.items && db.items[db.versions[v].item].thread == thread) :: db.versions[v],
       db.next)
  }

  /**
   Prepared templates are the extracted blocks of uploads, and the block map stored at upload, which is the same
   extraction, reloads (`_load_docx_template`, `require_matching_blocks`).
   */
  ghost predicate Prepared(uploads: Uploads, r: Response) {
    forall id <- r.prepared ::
      && id in uploads && Doc.Extract(uploads[id].body, uploads[id].rels) == Doc.Ok(r.prepared[id])
      && Stored.Reloads(r.prepared[id])
  }

  ghost predicate Commits(uploads: Uploads, maxWords: nat, s: Db, r: Response, t: Db) {
    Decoded(r.document.state) && Prepared(uploads, r) && Apply(maxWords, s, r) == Doc.Ok(t)
  }

  ghost predicate Next(uploads: Uploads, maxWords: nat, s: Db, t: Db) {
    (exists r :: Commits(uploads, maxWords, s, r, t)) || (exists thread :: t == DeleteThread(s, thread))
  }

  ghost predicate IsRun(uploads: Uploads, maxWords: nat, run: seq<Db>) {
    && run != [] && run[0] == Db(map[], map[], run[0].next)
    && forall k :: 0 <= k < |run| - 1 ==> Next(uploads, maxWords, run[k], run[k + 1])
  }

  // ----- the invariant -----

  ghost predicate OneActive(db: Db) {
    forall i, j :: i in db.items && j in db.items && db.items[i].active && db.items[i] == db.items[j] ==> i == j
  }

  ghost predicate SamePlace(v: Version, w: Version) {
    v.item == w.item && v.number == w.number
  }

  /** No two versions of an item have the same number. */
  ghost predicate Unique(db: Db) {
    forall v, w :: v in db.versions && w in db.versions && SamePlace(db.versions[v], db.versions[w]) ==> v == w
  }

  /** Version 1 starts an item; version n + 1 continues version n, on the same template. */
  ghost predicate Chained(db: Db) {
    forall v <- db.versions :: Follows(db, db.versions[v])
  }

  ghost predicate Follows(db: Db, v: Version) {
    match v.parent
    case None => v.number == 1
    case Some(p) =>
      && p in db.versions && db.versions[p].item == v.item && 1 <= db.versions[p].number == v.number - 1
      && db.versions[p].content.template == v.content.template
  }

  ghost predicate Refers(db: Db) {
    && (forall i <- db.items :: i < db.next)
    && (forall v <- db.versions :: v < db.next && db.versions[v].item in db.items)
  }

  /** Every item has a version. */
  ghost predicate Started(db: Db) {
    forall i <- db.items :: HasVersion(db, i)
  }

  ghost predicate HasVersion(db: Db, i: nat) {
    exists v :: v in db.versions && db.versions[v].item == i
  }

  /** A Word-backed version records a valid block map of its template, and its output is the map's plain text. */
  ghost predicate Recorded(uploads: Uploads, maxWords: nat, c: Content) {
    && !IsBlank(c.source) && !IsBlank(c.output) && c.brief != "" && CountWords(c.source) <= maxWords
    && (c.template.Some? <==> c.blocks.Some?)
    && (c.template.Some? ==> BlocksRecorded(uploads, c.template.value, c.blocks.value, c.output))
  }

  ghost predicate BlocksRecorded(uploads: Uploads, id: nat, rs: seq<Doc.Replacement>, output: string) {
    && id in uploads
    && Doc.Extract(uploads[id].body, uploads[id].rels).Ok?
    && Stored.Reloads(Doc.Extract(uploads[id].body, uploads[id].rels).value)
    && Doc.ValidReplacements(Doc.Extract(uploads[id].body, uploads[id].rels).value, rs)
    && output == Doc.PlainText(Doc.ReplacementTexts(rs))
  }

  /** The source of Word-backed content is the plain text of its template. */
  ghost predicate FromTemplate(uploads: Uploads, c: Content) {
    c.template.Some? ==>
      && c.template.value in uploads
      && var blocks := Doc.Extract(uploads[c.template.value].body, uploads[c.template.value].rels);
      && blocks.Ok? && c.source == Doc.PlainText(Doc.BlockTexts(blocks.value))
  }

  ghost predicate VersionOk(uploads: Uploads, maxWords: nat, v: Version) {
    Recorded(uploads, maxWords, v.content) && (v.number == 1 ==> FromTemplate(uploads, v.content))
  }

  ghost predicate Inv(uploads: Uploads, maxWords: nat, db: Db) {
    && OneActive(db) && Unique(db) && Chained(db) && Refers(db) && Started(db)
    && forall v <- db.versions :: VersionOk(uploads, maxWords, db.versions[v])
  }

  lemma CheckedIsRecorded(uploads: Uploads, maxWords: nat, r: Response, state: StateOperation, c: Content)
    requires Prepared(uploads, r)
    requires c.template.Some? ==> c.template.value in r.prepared && StateBlocks(state).Some?
    requires Checked(r, state, maxWords, c).Ok?
    ensures Recorded(uploads, maxWords, Checked(r, state, maxWords, c).value)
    ensures Checked(r, state, maxWords, c).value.template == c.template
  {
    hide IsBlank, CountWords, Stored.Reloads, Doc.Extract, Doc.ValidReplacements, Doc.PlainText, Doc.ReplacementError;
  }

  /** Adding one version with a new id and a new place. */
  lemma GrowsKeeps(s: Db, t: Db, id: nat, v: Version)
    requires Unique(s) && Chained(s) && id !in s.versions && t.versions == s.versions[id := v]
    requires forall w <- s.versions :: !SamePlace(s.versions[w], v)
    requires Follows(t, v)
    ensures Unique(t) && Chained(t)
  {
    forall w | w in s.versions
      ensures Follows(t, t.versions[w])
    {
      assert Follows(s, s.versions[w]);
    }
  }

  lemma StartedGrows(s: Db, t: Db, i: nat)
    requires HasVersion(s, i) && forall v <- s.versions :: v in t.versions && t.versions[v] == s.versions[v]
    ensures HasVersion(t, i)
  {
    var v :| v in s.versions && s.versions[v].item == i;
    assert t.versions[v].item == i;
  }

  lemma AddItemKeeps(uploads: Uploads, maxWords: nat, db: Db, thread: nat, c: Content)
    requires Inv(uploads, maxWords, db) && Recorded(uploads, maxWords, c) && FromTemplate(uploads, c)
    ensures Inv(uploads, maxWords, AddItem(db, thread, c))
  {
    hide Recorded, FromTemplate, HasVersion, Unique, Chained;
    var t := AddItem(db, thread, c);
    forall i | i in t.items
      ensures HasVersion(t, i)
    {
      if i == db.next {
        HasOne(t, i, db.next + 1);
      } else {
        StartedGrows(db, t, i);
      }
    }
    GrowsKeeps(db, t, db.next + 1, t.versions[db.next + 1]);
  }

  lemma HasOne(db: Db, i: nat, v: nat)
    requires v in db.versions && db.versions[v].item == i
    ensures HasVersion(db, i)
  {
  }

  lemma AddVersionKeeps(uploads: Uploads, maxWords: nat, db: Db, v: nat, c: Content)
    requires Inv(uploads, maxWords, db) && Recorded(uploads, maxWords, c)
    requires v in db.versions && IsNewest(db, db.versions[v].item, v) && c.template == db.versions[v].content.template
    ensures Inv(uploads, maxWords, AddVersion(db, v, c))
  {
    hide Recorded, FromTemplate, HasVersion, Unique;
    var t := AddVersion(db, v, c);
    forall i | i in t.items
      ensures HasVersion(t, i)
    {
      StartedGrows(db, t, i);
    }
    assert Follows(db, db.versions[v]);
    hide Chained;
    GrowsKeeps(db, t, db.next, t.versions[db.next]);
  }

  lemma DeleteKeeps(uploads: Uploads, maxWords: nat, db: Db, thread: nat)
    requires Inv(uploads, maxWords, db)
    ensures Inv(uploads, maxWords, DeleteThread(db, thread))
  {
    hide VersionOk, Started, Unique, Chained;
    DeleteKeepsVersions(db, thread);
    DeleteKeepsStarted(db, thread);
  }

  lemma DeleteKeepsVersions(db: Db, thread: nat)
    requires Unique(db) && Chained(db)
    ensures Unique(DeleteThread(db, thread)) && Chained(DeleteThread(db, thread))
  {
    var t := DeleteThread(db, thread);
    forall v | v in t.versions
      ensures Follows(t, t.versions[v])
    {
      assert Follows(db, db.versions[v]);
    }
  }

  lemma DeleteKeepsStarted(db: Db, thread: nat)
    requires Started(db)
    ensures Started(DeleteThread(db, thread))
  {
    var t := DeleteThread(db, thread);
    forall i | i in t.items
      ensures HasVersion(t, i)
    {
      assert HasVersion(db, i);
      var v :| v in db.versions && db.versions[v].item == i;
      HasOne(t, i, v);
    }
  }

  /** A new item records the visible deliverable, and as its source the template's plain text or the given one. */
  lemma EstablishedSource(uploads: Uploads, maxWords: nat, r: Response, state: StateOperation, visible: string)
    requires state.Establish? && Prepared(uploads, r) && Established(r, state, visible).Ok?
    requires Checked(r, state, maxWords, Established(r, state, visible).value).Ok?
    ensures var c := Checked(r, state, maxWords, Established(r, state, visible).value).value;
            && c.output == visible && c.brief == state.brief && FromTemplate(uploads, c)
            && (c.template.None? ==> state.source == Some(c.source) && r.own.None?)
            && (c.template.Some? ==> c.template == (if r.own.Some? then r.own else r.latest) && (state.source.Some? ==> state.source.value == c.source))
  {
    hide IsBlank, CountWords, Stored.Reloads, Doc.Extract, Doc.ValidReplacements, Doc.PlainText, Doc.ReplacementError, Doc.BlockTexts;
  }

  /** What a committed response did: nothing, a new item, or a new version on top of the current one. */
  lemma CommitSays(uploads: Uploads, maxWords: nat, s: Db, r: Response, t: Db)
    returns (v: nat, c: Content)
    requires Commits(uploads, maxWords, s, r, t)
    ensures r.document.state.NoState? ==> t == s
    ensures !r.document.state.NoState? ==> Recorded(uploads, maxWords, c)
    ensures r.document.state.Establish? ==> t == AddItem(s, r.thread, c) && FromTemplate(uploads, c)
    ensures Extends(r.document.state) ==>
              && IsCurrent(s, r.thread, v) && t == AddVersion(s, v, c)
              && r.document.state.baseVersion == s.versions[v].number && c.template == s.versions[v].content.template
  {
    hide Recorded, FromTemplate, Checked, Established, Extended, Deliverables, AddItem, AddVersion;
    var state := r.document.state;
    v, c := 0, Content("", "", "", None, None);
    if state.Establish? {
      var draft := Established(r, state, Deliverables(r.document.blocks)[0]).value;
      CheckedIsRecorded(uploads, maxWords, r, state, draft);
      EstablishedSource(uploads, maxWords, r, state, Deliverables(r.document.blocks)[0]);
      c := Checked(r, state, maxWords, draft).value;
    } else if !state.NoState? {
      v := Current(s, r.thread).value;
      var draft := Extended(r, state, Deliverables(r.document.blocks)[0], s.versions[v]).value;
      CheckedIsRecorded(uploads, maxWords, r, state, draft);
      c := Checked(r, state, maxWords, draft).value;
    }
  }

  lemma NextKeeps(uploads: Uploads, maxWords: nat, s: Db, t: Db)
    requires Inv(uploads, maxWords, s) && Next(uploads, maxWords, s, t)
    ensures Inv(uploads, maxWords, t)
  {
    hide Inv, Apply, AddItem, AddVersion, DeleteThread, Commits;
    if r :| Commits(uploads, maxWords, s, r, t) {
      var v, c := CommitSays(uploads, maxWords, s, r, t);
      if r.document.state.Establish? {
        AddItemKeeps(uploads, maxWords, s, r.thread, c);
      } else if Extends(r.document.state) {
        AddVersionKeeps(uploads, maxWords, s, v, c);
      }
    } else {
      var thread :| t == DeleteThread(s, thread);
      DeleteKeeps(uploads, maxWords, s, thread);
    }
  }

  /** Every database a run reaches keeps the invariant. */
  lemma {:induction false} RunKeeps(uploads: Uploads, maxWords: nat, run: seq<Db>, k: nat)
    requires IsRun(uploads, maxWords, run) && k < |run|
    ensures Inv(uploads, maxWords, run[k])
  {
    hide Next, Chained, Started;
    if k == 0 {
      EmptyKeeps(uploads, maxWords, run[0]);
    } else {
      RunKeeps(uploads, maxWords, run, k - 1);
      NextKeeps(uploads, maxWords, run[k - 1], run[k]);
    }
  }

  lemma EmptyKeeps(uploads: Uploads, maxWords: nat, db: Db)
    requires db.items == map[] && db.versions == map[]
    ensures Inv(uploads, maxWords, db)
  {
  }

  // ----- what the invariant means -----

  /** Version k + 1 of an item; its parent is version k. */
  ghost predicate InPlace(db: Db, i: nat, ids: seq<nat>, k: nat)
    requires k < |ids|
  {
    && ids[k] in db.versions && db.versions[ids[k]].item == i && db.versions[ids[k]].number == k + 1
    && db.versions[ids[k]].parent == if k == 0 then None else Some(ids[k - 1])
  }

  /** The versions of an item are numbered 1 to n, each number once, and version k + 1 names version k as parent. */
  ghost predicate NumberedTo(db: Db, i: nat, ids: seq<nat>) {
    && (forall k :: 0 <= k < |ids| ==> InPlace(db, i, ids, k))
    && (forall v <- db.versions :: db.versions[v].item == i ==> v in ids)
  }

  /** The ancestors of a version, oldest first, ending with the version itself. */
  lemma {:induction false} Ancestors(db: Db, v: nat) returns (ids: seq<nat>)
    requires Chained(db) && v in db.versions
    ensures |ids| == db.versions[v].number && ids[|ids| - 1] == v
    ensures forall k :: 0 <= k < |ids| ==> InPlace(db, db.versions[v].item, ids, k)
    ensures forall k :: 0 <= k < |ids| ==> ids[k] in db.versions && db.versions[ids[k]].content.template == db.versions[v].content.template
    decreases db.versions[v].number
  {
    assert Follows(db, db.versions[v]);
    hide Chained;
    var item := db.versions[v].item;
    if db.versions[v].parent.None? {
      ids := [v];
      assert InPlace(db, item, ids, 0);
    } else {
      var before := Ancestors(db, db.versions[v].parent.value);
      ids := before + [v];
      forall k | 0 <= k < |ids|
        ensures InPlace(db, item, ids, k)
      {
        if k < |before| {
          assert InPlace(db, item, before, k);
        }
      }
    }
  }

  lemma {:induction false} LargestNumber(db: Db, i: nat, among: set<nat>) returns (v: nat)
    requires forall w <- among :: w in db.versions && db.versions[w].item == i
    requires among != {}
    ensures v in among && forall w <- among :: db.versions[w].number <= db.versions[v].number
    decreases among
  {
    v :| v in among;
    if among != {v} {
      var best := LargestNumber(db, i, among - {v});
      if db.versions[best].number > db.versions[v].number {
        v := best;
      }
    }
  }

  lemma Newest(db: Db, i: nat) returns (v: nat)
    requires HasVersion(db, i)
    ensures IsNewest(db, i, v)
  {
    var all := set v | v in db.versions && db.versions[v].item == i;
    var w :| w in db.versions && db.versions[w].item == i;
    assert w in all;
    v := LargestNumber(db, i, all);
    forall u | u in db.versions && db.versions[u].item == i
      ensures db.versions[u].number <= db.versions[v].number
    {
      assert u in all;
    }
  }

  /** Every item has a newest version, and its history is exactly 1 to n. */
  lemma HistoryIsNumbered(uploads: Uploads, maxWords: nat, db: Db, i: nat) returns (ids: seq<nat>)
    requires Inv(uploads, maxWords, db) && i in db.items
    ensures ids != [] && NumberedTo(db, i, ids) && IsNewest(db, i, ids[|ids| - 1])
  {
    hide VersionOk, Recorded, OneActive, Refers, HasVersion, Chained, Unique;
    var newest := Newest(db, i);
    hide Started;
    PositiveNumber(db, newest);
    ids := Ancestors(db, newest);
    forall v | v in db.versions && db.versions[v].item == i
      ensures v in ids
    {
      PositiveNumber(db, v);
      var k := db.versions[v].number - 1;
      assert InPlace(db, i, ids, k);
      SameId(db, v, ids[k]);
    }
  }

  lemma SameId(db: Db, v: nat, w: nat)
    requires Unique(db) && v in db.versions && w in db.versions && SamePlace(db.versions[v], db.versions[w])
    ensures v == w
  {
  }

  lemma PositiveNumber(db: Db, v: nat)
    requires Chained(db) && v in db.versions
    ensures db.versions[v].number >= 1
  {
    assert Follows(db, db.versions[v]);
  }

  /** The template of a work item never changes. */
  lemma OneTemplate(uploads: Uploads, maxWords: nat, db: Db, v: nat, w: nat)
    requires Inv(uploads, maxWords, db) && v in db.versions && w in db.versions
    requires db.versions[v].item == db.versions[w].item
    ensures db.versions[v].content.template == db.versions[w].content.template
  {
    hide VersionOk, Recorded, OneActive, Refers, Started, Unique, Chained;
    PositiveNumber(db, v);
    PositiveNumber(db, w);
    var a := Ancestors(db, v);
    var b := Ancestors(db, w);
    assert InPlace(db, db.versions[v].item, a, 0) && InPlace(db, db.versions[w].item, b, 0);
    SameId(db, a[0], b[0]);
  }

  // ----- over time -----

  /** What no step undoes. */
  ghost predicate Later(s: Db, t: Db) {
    && s.next <= t.next
    && (forall v <- s.versions :: v < s.next && (v in t.versions ==> t.versions[v] == s.versions[v]))
    && (forall v <- t.versions :: v in s.versions || s.next <= v)
    && (forall i <- t.items :: i in s.items || s.next <= i)
    && (forall i <- s.items :: i < s.next && (i in t.items ==> t.items[i].thread == s.items[i].thread && (t.items[i].active ==> s.items[i].active)))
    && (forall v <- s.versions :: s.versions[v].item < s.next && (s.versions[v].item in t.items ==> v in t.versions))
  }

  lemma NextIsLater(uploads: Uploads, maxWords: nat, s: Db, t: Db)
    requires Inv(uploads, maxWords, s) && Next(uploads, maxWords, s, t)
    ensures Later(s, t)
  {
    hide Apply, Commits, Recorded, OneActive, Unique, Chained, Started, AddItem, AddVersion, DeleteThread, Later;
    if r :| Commits(uploads, maxWords, s, r, t) {
      var v, c := CommitSays(uploads, maxWords, s, r, t);
      CommitIsLater(s, r.thread, v, c);
    } else {
      var thread :| t == DeleteThread(s, thread);
      DeleteIsLater(s, thread);
    }
  }

  lemma CommitIsLater(s: Db, thread: nat, v: nat, c: Content)
    requires Refers(s)
    ensures Later(s, s) && Later(s, AddItem(s, thread, c)) && (v in s.versions ==> Later(s, AddVersion(s, v, c)))
  {
  }

  lemma DeleteIsLater(s: Db, thread: nat)
    requires Refers(s)
    ensures Later(s, DeleteThread(s, thread))
  {
  }

  lemma LaterIsTransitive(s: Db, t: Db, u: Db)
    requires Later(s, t) && Later(t, u)
    ensures Later(s, u)
  {
  }

  /**
   Over any stretch of a run: a version, once written, is never rewritten and disappears only with its item; a
   superseded item never becomes active again.
   */
  lemma {:induction false} HistoryIsImmutable(uploads: Uploads, maxWords: nat, run: seq<Db>, j: nat, k: nat)
    requires IsRun(uploads, maxWords, run) && j <= k < |run|
    ensures Later(run[j], run[k])
    decreases k
  {
    hide Next, Later, Inv;
    RunKeeps(uploads, maxWords, run, j);
    if j == k {
      InvIsLater(uploads, maxWords, run[j]);
    } else {
      HistoryIsImmutable(uploads, maxWords, run, j, k - 1);
      RunKeeps(uploads, maxWords, run, k - 1);
      NextIsLater(uploads, maxWords, run[k - 1], run[k]);
      LaterIsTransitive(run[j], run[k - 1], run[k]);
    }
  }

  lemma InvIsLater(uploads: Uploads, maxWords: nat, db: Db)
    requires Inv(uploads, maxWords, db)
    ensures Later(db, db)
  {
  }

  /** The current version is unique. */
  lemma CurrentIs(uploads: Uploads, maxWords: nat, db: Db, thread: nat, v: nat)
    requires Inv(uploads, maxWords, db) && IsCurrent(db, thread, v)
    ensures Current(db, thread) == Some(v)
  {
    hide VersionOk, Recorded, Chained, Refers, Started;
    forall w | IsCurrent(db, thread, w)
      ensures w == v
    {
      assert db.items[db.versions[w].item] == db.items[db.versions[v].item];
      assert SamePlace(db.versions[v], db.versions[w]);
    }
  }

  /**
   No lost update: once a response has extended version n of an item, every later response that names base
   version n is refused for as long as that item stays the active one.
   */
  lemma BaseIsConsumed(uploads: Uploads, maxWords: nat, run: seq<Db>, j: nat, k: nat, first: Response, second: Response, v: nat)
    requires IsRun(uploads, maxWords, run) && j < k < |run|
    requires Commits(uploads, maxWords, run[j], first, run[j + 1]) && Extends(first.document.state)
    requires Decoded(second.document.state) && Extends(second.document.state)
    requires second.document.state.baseVersion == first.document.state.baseVersion
    requires IsCurrent(run[j], first.thread, v)
    requires IsActiveItem(run[k], second.thread, run[j].versions[v].item)
    ensures Apply(maxWords, run[k], second).Err?
  {
    hide Inv, Commits, Next, IsRun, Later, Established, Extended, Checked, Deliverables;
    RunKeeps(uploads, maxWords, run, j);
    RunKeeps(uploads, maxWords, run, k);
    var w, c := CommitSays(uploads, maxWords, run[j], first, run[j + 1]);
    CurrentIs(uploads, maxWords, run[j], first.thread, v);
    CurrentIs(uploads, maxWords, run[j], first.thread, w);
    HistoryIsImmutable(uploads, maxWords, run, j + 1, k);
    var i := run[j].versions[v].item;
    NewerRemains(run[j], v, c, run[k]);
    var ids := HistoryIsNumbered(uploads, maxWords, run[k], i);
    CurrentIs(uploads, maxWords, run[k], second.thread, ids[|ids| - 1]);
  }

  lemma NewerRemains(s: Db, v: nat, c: Content, u: Db)
    requires v in s.versions && Later(AddVersion(s, v, c), u) && s.versions[v].item in u.items
    ensures s.next in u.versions && u.versions[s.next].item == s.versions[v].item && u.versions[s.next].number == s.versions[v].number + 1
  {
  }

  // ----- export -----

  /** The first version of Word-backed work has the plain text of its template as its source. */
  lemma FirstVersionIsTheUpload(uploads: Uploads, maxWords: nat, run: seq<Db>, k: nat, v: nat)
    requires IsRun(uploads, maxWords, run) && k < |run| && v in run[k].versions && run[k].versions[v].number == 1
    ensures FromTemplate(uploads, run[k].versions[v].content)
  {
    hide IsRun, FromTemplate, Recorded, OneActive, Unique, Chained, Refers, Started;
    RunKeeps(uploads, maxWords, run, k);
    assert VersionOk(uploads, maxWords, run[k].versions[v]);
  }

  /**
   What a conversation exports: in every reachable state, a Word-backed current version has a template whose stored
   block map still reloads (no link number is missing) and into which its blocks can be rendered. Reading the
   exported document back gives the recorded blocks if and only if every edited paragraph reads back; then its
   plain text is the recorded output.
   */
  lemma ExportReproducesLatest(uploads: Uploads, maxWords: nat, run: seq<Db>, k: nat, thread: nat, v: nat)
    requires IsRun(uploads, maxWords, run) && k < |run|
    requires IsCurrent(run[k], thread, v) && run[k].versions[v].content.template.Some?
    requires var id := run[k].versions[v].content.template.value;
             id in uploads ==> Rendering.Parsed(uploads[id].body, uploads[id].rels)
    ensures var c := run[k].versions[v].content;
            && c.blocks.Some? && c.template.value in uploads
            && Exports(uploads[c.template.value], c.blocks.value, c.output)
  {
    hide IsRun, Rendering.Parsed, Stored.Reloads, Exports, Doc.Extract, Doc.ValidReplacements, Doc.PlainText, IsBlank, CountWords,
         OneActive, Unique, Chained, Refers, Started, FromTemplate;
    RunKeeps(uploads, maxWords, run, k);
    var c := run[k].versions[v].content;
    assert VersionOk(uploads, maxWords, run[k].versions[v]);
    RecordedExports(uploads[c.template.value], c.blocks.value, c.output);
  }

  ghost predicate Exports(template: Template, rs: seq<Doc.Replacement>, output: string) {
    var blocks, rendered := Doc.Extract(template.body, template.rels), Doc.Render(template.body, template.rels, rs);
    && blocks.Ok? && rendered.Ok? && |rs| == |blocks.value|
    && Stored.NoGap(template.body, template.rels, |template.body|)
    && var exported, expected := Doc.Extract(rendered.value, template.rels), Rendering.WithTexts(blocks.value, rs);
    && (exported == Doc.Ok(expected) <==> Rendering.AllReadBack(template.body, template.rels, rs, |template.body|))
    && Doc.BlockTexts(expected) == Doc.ReplacementTexts(rs) && Doc.PlainText(Doc.BlockTexts(expected)) == output
  }

  lemma RecordedExports(template: Template, rs: seq<Doc.Replacement>, output: string)
    requires Doc.Extract(template.body, template.rels).Ok? && Rendering.Parsed(template.body, template.rels)
    requires Stored.Reloads(Doc.Extract(template.body, template.rels).value)
    requires Doc.ValidReplacements(Doc.Extract(template.body, template.rels).value, rs)
    requires output == Doc.PlainText(Doc.ReplacementTexts(rs))
    ensures Exports(template, rs, output)
  {
    hide Rendering.Parsed, Rendering.AllReadBack, Stored.Reloads, Stored.NoGap, Doc.Render, Doc.Extract, Doc.ValidReplacements, Doc.PlainText;
    LinksBounded(template);
    Stored.ReloadsIffNoGap(template.body, template.rels);
    Rendering.ExtractAfterRender(template.body, template.rels, rs);
  }

  lemma LinksBounded(template: Template)
    requires Doc.Extract(template.body, template.rels).Ok? && Rendering.Parsed(template.body, template.rels)
    ensures Doc.ExtractFirst(template.body, template.rels, |template.body|).value.number < 1_000_000
  {
    hide Doc.ExtractFirst;
  }
}
