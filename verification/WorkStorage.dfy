/** The database operation behind a committed response (`_apply_state_operation`, src/oveo/generation.py). */
module WorkStorage {
  import opened GenerationStatus
  import opened Protocol
  import opened UnicodeText
  import opened WorkHistory
  import Substitution
  import Doc = DocxDocument

  /** The row a query for the active item finds. */
  method FindActive(items: map<nat, Item>, thread: nat) returns (found: Option<nat>)
    ensures found.Some? ==> found.value in items && items[found.value] == Item(thread, true)
    ensures found.None? ==> forall i <- items :: items[i] != Item(thread, true)
  {
    var rest := items.Keys;
    while rest != {}
      invariant rest <= items.Keys
      invariant forall i <- items :: items[i] == Item(thread, true) ==> i in rest
      decreases rest
    {
      var i :| i in rest;
      if items[i] == Item(thread, true) {
        return Some(i);
      }
      rest := rest - {i};
    }
    return None;
  }

  /** `order_by(version_no.desc()).limit(1)` */
  method FindNewest(db: Db, item: nat) returns (found: Option<nat>)
    ensures found.Some? ==> IsNewest(db, item, found.value)
    ensures found.None? ==> forall v <- db.versions :: db.versions[v].item != item
  {
    found := None;
    var rest := db.versions.Keys;
    while rest != {}
      invariant rest <= db.versions.Keys
      invariant found.Some? ==> found.value in db.versions && db.versions[found.value].item == item
      invariant forall v <- db.versions :: v !in rest && db.versions[v].item == item ==>
                  found.Some? && db.versions[v].number <= db.versions[found.value].number
      decreases rest
    {
      var v :| v in rest;
      if db.versions[v].item == item && (found.None? || db.versions[v].number > db.versions[found.value].number) {
        found := Some(v);
      }
      rest := rest - {v};
    }
  }

  /** The texts of the deliverable blocks. */
  method CollectDeliverables(blocks: seq<ContentBlock>) returns (texts: seq<string>)
    ensures texts == Deliverables(blocks)
  {
    texts := [];
    for k := 0 to |blocks|
      invariant texts == Deliverables(blocks[..k])
    {
      assert blocks[..k + 1][..k] == blocks[..k];
      if blocks[k].kind.Deliverable? {
        texts := texts + [blocks[k].text];
      }
    }
    assert blocks[..|blocks|] == blocks;
  }

  /** The loop that splits a replacement list by the text it applies to. */
  method CollectEdits(rs: seq<Exact>) returns (source: seq<Substitution.Replacement>, output: seq<Substitution.Replacement>)
    ensures source == SourceEdits(rs) && output == OutputEdits(rs)
  {
    source, output := [], [];
    for k := 0 to |rs|
      invariant source == SourceEdits(rs[..k]) && output == OutputEdits(rs[..k])
    {
      assert rs[..k + 1][..k] == rs[..k];
      if rs[k].source.Some? {
        source := source + [Substitution.Replacement(rs[k].source.value.0, rs[k].source.value.1)];
      }
      output := output + [Substitution.Replacement(rs[k].outputAnchor, rs[k].outputReplacement)];
    }
    assert rs[..|rs|] == rs;
  }

  method EstablishContent(r: Response, state: StateOperation, visible: string) returns (o: Doc.Result<Content>)
    requires state.Establish?
    ensures o == Established(r, state, visible)
  {
    hide Doc.PlainText;
    var docx := r.own;
    if docx.None? && state.docxBlocks.Some? {
      docx := r.latest;
    }
    if docx.None? {
      if state.docxBlocks.Some? {
        return Doc.Err("state_docx_blocks_unexpected");
      }
      if state.source.None? {
        return Doc.Err("state_source_missing");
      }
      return Doc.Ok(Content(state.source.value, visible, state.brief, None, None));
    }
    if state.docxBlocks.None? {
      return Doc.Err("state_docx_blocks_missing");
    }
    if docx.value !in r.prepared {
      return Doc.Err("state_docx_template_missing");
    }
    var plain := Doc.PlainTextOf(Doc.BlockTexts(r.prepared[docx.value]));
    if state.source.Some? && state.source.value != plain {
      return Doc.Err("state_docx_source_mismatch");
    }
    return Doc.Ok(Content(plain, visible, state.brief, docx, None));
  }

  method EditContent(state: StateOperation, visible: string, c: Content) returns (o: Doc.Result<Content>)
    requires Decoded(state) && Extends(state)
    ensures o == Edited(state, visible, c)
  {
    hide Substitution.Meaning, Decoded;
    var source, output, brief := c.source, c.output, c.brief;
    if state.newBrief.Some? {
      brief := state.newBrief.value;
    }
    if state.Append? {
      source := AppendText(source, state.sourceAddition, state.sourceSeparator);
      var addition := visible;
      if state.outputAddition.Some? {
        addition := state.outputAddition.value;
      } else if AppendText(output, "", state.outputSeparator) <= visible {
        return Doc.Err("state_output_addition_missing");
      }
      output := AppendText(output, addition, state.outputSeparator);
      if visible != addition && visible != output {
        return Doc.Err("state_deliverable_mismatch");
      }
    } else if state.Replace? {
      DecodedIsAnchored(state);
      var sourceEdits, outputEdits := CollectEdits(state.replacements);
      var newSource := Substitution.ApplyBaseReplacements(source, sourceEdits);
      if !newSource.Applied? {
        return Doc.Err(AnchorError(newSource, "source"));
      }
      var newOutput := Substitution.ApplyBaseReplacements(output, outputEdits);
      if !newOutput.Applied? {
        return Doc.Err(AnchorError(newOutput, "output"));
      }
      source, output := newSource.text, newOutput.text;
      if visible != output {
        return Doc.Err("state_deliverable_mismatch");
      }
    } else {
      if state.source.Some? {
        source := state.source.value;
      }
      output := visible;
    }
    return Doc.Ok(Content(source, output, brief, c.template, None));
  }

  method ExtendContent(r: Response, state: StateOperation, visible: string, base: Version) returns (o: Doc.Result<Content>)
    requires Decoded(state) && Extends(state)
    ensures o == Extended(r, state, visible, base)
  {
    hide Edited, Decoded;
    var c := base.content;
    if state.baseVersion != base.number {
      return Doc.Err("state_base_mismatch");
    }
    if c.template.Some? != c.blocks.Some? {
      return Doc.Err("state_docx_base_invalid");
    }
    if r.own.Some? {
      return Doc.Err("state_docx_requires_establish");
    }
    if c.template.Some? {
      if state.Append? {
        return Doc.Err("state_docx_append_unsupported");
      }
      if StateBlocks(state).None? {
        return Doc.Err("state_docx_blocks_missing");
      }
      if c.template.value !in r.prepared {
        return Doc.Err("state_docx_template_missing");
      }
    } else if StateBlocks(state).Some? {
      return Doc.Err("state_docx_blocks_unexpected");
    }
    o := EditContent(state, visible, c);
  }

  method CheckContent(r: Response, state: StateOperation, maxWords: nat, c: Content) returns (o: Doc.Result<Content>)
    requires c.template.Some? ==> c.template.value in r.prepared && StateBlocks(state).Some?
    ensures o == Checked(r, state, maxWords, c)
  {
    hide Doc.ValidReplacements, Doc.PlainText, Doc.ReplacementTexts, Doc.CheckReplacement, Doc.ReplacementError, IsBlank, CountWords;
    var blocks: Option<seq<Doc.Replacement>> := None;
    if c.template.Some? {
      var rs := AsReplacements(StateBlocks(state).value);
      var code := Doc.ValidateReplacements(r.prepared[c.template.value], rs);
      if code != "" {
        return Doc.Err(code);
      }
      var plain := Doc.PlainTextOf(Doc.ReplacementTexts(rs));
      if c.output != plain {
        return Doc.Err("state_docx_output_mismatch");
      }
      blocks := Some(rs);
    }
    if IsBlank(c.source) || IsBlank(c.output) || c.brief == "" {
      return Doc.Err("invalid_canonical_state");
    }
    if CountWords(c.source) > maxWords {
      return Doc.Err("state_source_word_limit");
    }
    return Doc.Ok(c.(blocks := blocks));
  }

  // ----- rows the queries find -----

  lemma NoCurrent(db: Db, thread: nat)
    requires forall i <- db.items :: db.items[i] != Item(thread, true)
    ensures Current(db, thread).None?
  {
  }

  lemma ActiveHasVersion(uploads: Uploads, maxWords: nat, db: Db, i: nat)
    requires Inv(uploads, maxWords, db) && i in db.items
    ensures exists v <- db.versions :: db.versions[v].item == i
  {
    assert HasVersion(db, i);
  }

  lemma NewestIsCurrent(db: Db, thread: nat, i: nat, v: nat)
    requires IsActiveItem(db, thread, i) && IsNewest(db, i, v)
    ensures v in db.versions && db.versions[v].item == i && IsCurrent(db, thread, v)
  {
  }

  /** At most one row is active, so retiring the row found retires all. */
  lemma RetiresAll(uploads: Uploads, maxWords: nat, db: Db, thread: nat, item: Option<nat>, c: Content)
    requires Inv(uploads, maxWords, db)
    requires item.Some? ==> IsActiveItem(db, thread, item.value)
    requires item.None? ==> forall i <- db.items :: db.items[i] != Item(thread, true)
    ensures var items := if item.Some? then db.items[item.value := Item(thread, false)] else db.items;
            AddItem(db, thread, c).items == items[db.next := Item(thread, true)]
  {
    hide VersionOk, Recorded, Unique, Chained, Started;
    var items := if item.Some? then db.items[item.value := Item(thread, false)] else db.items;
    forall i | i in db.items && db.items[i].thread == thread
      ensures !items[i].active
    {
      if db.items[i].active {
        assert db.items[i] == Item(thread, true);
      }
    }
  }

  lemma CommitKeeps(uploads: Uploads, maxWords: nat, s: Db, r: Response, t: Db)
    requires Inv(uploads, maxWords, s) && Commits(uploads, maxWords, s, r, t)
    ensures Inv(uploads, maxWords, t)
  {
    hide Inv, Commits;
    assert Next(uploads, maxWords, s, t);
    NextKeeps(uploads, maxWords, s, t);
  }

  /** The work tables of the database, updated in place by a committed response. */
  class WorkStore {
    var items: map<nat, Item>
    var versions: map<nat, Version>
    var next: nat

    constructor ()
      ensures Rows() == Db(map[], map[], 0)
    {
      items, versions, next := map[], map[], 0;
    }

    function Rows(): Db
      reads this
    {
      Db(items, versions, next)
    }

    /** The error raised, if any; it leaves the tables as they were, because its transaction is rolled back. */
    method ApplyStateOperation(ghost uploads: Uploads, maxWords: nat, r: Response) returns (error: Option<string>)
      requires Decoded(r.document.state) && Inv(uploads, maxWords, Rows()) && Prepared(uploads, r)
      modifies this
      ensures Inv(uploads, maxWords, Rows())
      ensures match Apply(maxWords, old(Rows()), r)
              case Ok(after) => error == None && Rows() == after
              case Err(code) => error == Some(code) && Rows() == old(Rows())
    {
      hide Inv, Established, Extended, Checked, Deliverables, Decoded, Prepared, IsNewest, IsCurrent;
      ghost var start := Rows();
      var state := r.document.state;
      if state.NoState? {
        return None;
      }
      var shown := CollectDeliverables(r.document.blocks);
      if |shown| != 1 {
        return Some("state_deliverable_count_mismatch");
      }
      var item := FindActive(items, r.thread);
      if state.Establish? {
        var drafted := EstablishContent(r, state, shown[0]);
        if drafted.Err? {
          return Some(drafted.code);
        }
        var checked := CheckContent(r, state, maxWords, drafted.value);
        if checked.Err? {
          return Some(checked.code);
        }
        if item.Some? {
          items := items[item.value := Item(r.thread, false)];
        }
        items := items[next := Item(r.thread, true)];
        versions := versions[next + 1 := Version(next, 1, None, checked.value)];
        next := next + 2;
        RetiresAll(uploads, maxWords, start, r.thread, item, checked.value);
      } else {
        if item.None? {
          NoCurrent(start, r.thread);
          return Some("state_base_missing");
        }
        var current := FindNewest(Rows(), item.value);
        ActiveHasVersion(uploads, maxWords, start, item.value);
        NewestIsCurrent(start, r.thread, item.value, current.value);
        var base := versions[current.value];
        CurrentIs(uploads, maxWords, start, r.thread, current.value);
        var drafted := ExtendContent(r, state, shown[0], base);
        if drafted.Err? {
          return Some(drafted.code);
        }
        var checked := CheckContent(r, state, maxWords, drafted.value);
        if checked.Err? {
          return Some(checked.code);
        }
        versions := versions[next := Version(item.value, base.number + 1, current, checked.value)];
        next := next + 1;
      }
      CommitKeeps(uploads, maxWords, start, r, Rows());
      return None;
    }
  }
}
