/**
 What a committed response writes (`_apply_state_operation`, src/oveo/generation.py), said of the texts and tables
 before and after it, and exactly when it commits.
 */
module WorkEdits {
  import opened GenerationStatus
  import opened Protocol
  import opened UnicodeText
  import opened WorkHistory
  import Substitution
  import Doc = DocxDocument

  // ----- the visible deliverable -----

  predicate OnlyDeliverable(blocks: seq<ContentBlock>, k: nat) {
    && k < |blocks| && blocks[k].kind.Deliverable?
    && forall i :: 0 <= i < |blocks| && i != k ==> !blocks[i].kind.Deliverable?
  }

  lemma {:induction false} NoDeliverable(blocks: seq<ContentBlock>)
    ensures Deliverables(blocks) == [] <==> forall i :: 0 <= i < |blocks| ==> !blocks[i].kind.Deliverable?
  {
    if blocks != [] {
      NoDeliverable(blocks[..|blocks| - 1]);
    }
  }

  lemma {:induction false} OneDeliverable(blocks: seq<ContentBlock>) returns (k: nat)
    ensures |Deliverables(blocks)| == 1 ==> OnlyDeliverable(blocks, k) && Deliverables(blocks) == [blocks[k].text]
  {
    k := 0;
    if blocks != [] {
      var before, last := blocks[..|blocks| - 1], blocks[|blocks| - 1];
      if last.kind.Deliverable? {
        k := |blocks| - 1;
        NoDeliverable(before);
      } else {
        k := OneDeliverable(before);
      }
    }
  }

  lemma {:induction false} DeliverableIs(blocks: seq<ContentBlock>, k: nat)
    requires OnlyDeliverable(blocks, k)
    ensures Deliverables(blocks) == [blocks[k].text]
  {
    var before := blocks[..|blocks| - 1];
    if k == |blocks| - 1 {
      NoDeliverable(before);
    } else {
      DeliverableIs(before, k);
    }
  }

  // ----- append -----

  /** `whole` is `base`, the separator's text and `addition`, in this order. */
  predicate Joins(whole: string, base: string, separator: Separator, addition: string) {
    && |base| + |addition| <= |whole| && whole[..|base|] == base && whole[|whole| - |addition|..] == addition
    && whole[|base|..|whole| - |addition|] ==
       match separator
       case NoSeparator => ""
       case Space => " "
       case Line => "\n"
       case Paragraph => "\n\n"
  }

  lemma AppendJoins(whole: string, base: string, separator: Separator, addition: string)
    ensures whole == AppendText(base, addition, separator) <==> Joins(whole, base, separator, addition)
  {
    var gap := SeparatorText(separator);
    if whole == AppendText(base, addition, separator) {
      assert whole[|base|..|whole| - |addition|] == gap;
    }
    if Joins(whole, base, separator, addition) {
      assert whole == whole[..|base|] + whole[|base|..|whole| - |addition|] + whole[|whole| - |addition|..];
    }
  }

  lemma StartsJoined(whole: string, base: string, separator: Separator)
    ensures AppendText(base, "", separator) <= whole <==> exists rest :: Joins(whole, base, separator, rest)
  {
    var start := AppendText(base, "", separator);
    assert start == base + SeparatorText(separator);
    if start <= whole {
      var rest := whole[|start|..];
      assert whole == base + SeparatorText(separator) + rest;
      AppendJoins(whole, base, separator, rest);
    }
    if rest :| Joins(whole, base, separator, rest) {
      AppendJoins(whole, base, separator, rest);
      assert start <= whole;
    }
  }

  /** The addition a response appends: the one it names, or else its deliverable. */
  function Addition(state: StateOperation, visible: string): string
    requires state.Append?
  {
    if state.outputAddition.Some? then state.outputAddition.value else visible
  }

  ghost predicate Appends(state: StateOperation, visible: string, c: Content, d: Content) {
    && state.Append?
    && Joins(d.source, c.source, state.sourceSeparator, state.sourceAddition)
    && Joins(d.output, c.output, state.outputSeparator, Addition(state, visible))
    && (if state.outputAddition.Some? then visible == state.outputAddition.value || visible == d.output
        else !exists rest :: Joins(visible, c.output, state.outputSeparator, rest))
  }

  // ----- replace -----

  ghost predicate Applies(base: string, edits: seq<Substitution.Replacement>, text: string) {
    Substitution.Anchored(edits) && Substitution.Meaning(base, edits) == Substitution.Applied(text)
  }

  /** Every output anchor with its own replacement. */
  function OutputList(rs: seq<Exact>): seq<Substitution.Replacement> {
    seq(|rs|, i requires 0 <= i < |rs| => Substitution.Replacement(rs[i].outputAnchor, rs[i].outputReplacement))
  }

  /** The positions, in order, of the replacements that also replace source text. */
  ghost predicate ListsSources(rs: seq<Exact>, at: seq<nat>) {
    && (forall k :: 0 <= k < |at| ==> at[k] < |rs| && rs[at[k]].source.Some?)
    && (forall k, l :: 0 <= k < l < |at| ==> at[k] < at[l])
    && (forall i :: 0 <= i < |rs| && rs[i].source.Some? ==> i in at)
  }

  function SourceList(rs: seq<Exact>, at: seq<nat>): seq<Substitution.Replacement>
    requires forall k :: 0 <= k < |at| ==> at[k] < |rs| && rs[at[k]].source.Some?
  {
    seq(|at|, k requires 0 <= k < |at| => Substitution.Replacement(rs[at[k]].source.value.0, rs[at[k]].source.value.1))
  }

  lemma {:induction false} OutputPairs(rs: seq<Exact>)
    ensures OutputEdits(rs) == OutputList(rs)
  {
    if rs != [] {
      OutputPairs(rs[..|rs| - 1]);
      assert OutputList(rs) == OutputList(rs[..|rs| - 1]) + [OutputList(rs)[|rs| - 1]];
    }
  }

  lemma {:induction false} SourcePairs(rs: seq<Exact>) returns (at: seq<nat>)
    ensures ListsSources(rs, at) && SourceEdits(rs) == SourceList(rs, at)
  {
    hide ListsSources, SourceEdits;
    at := [];
    if rs == [] {
      NothingListed(rs);
    } else {
      at := SourcePairs(rs[..|rs| - 1]);
      LastSource(rs, at);
      LastEdit(rs);
      if rs[|rs| - 1].source.Some? {
        at := at + [|rs| - 1];
      }
    }
  }

  lemma NothingListed(rs: seq<Exact>)
    requires rs == []
    ensures ListsSources(rs, []) && SourceEdits(rs) == SourceList(rs, [])
  {
  }

  lemma LastEdit(rs: seq<Exact>)
    requires rs != []
    ensures SourceEdits(rs) ==
            SourceEdits(rs[..|rs| - 1])
            + var last := rs[|rs| - 1]; if last.source.Some? then [Substitution.Replacement(last.source.value.0, last.source.value.1)] else []
  {
  }

  lemma LastSource(rs: seq<Exact>, at: seq<nat>)
    requires rs != [] && ListsSources(rs[..|rs| - 1], at)
    ensures var n := |rs| - 1;
            var all := if rs[n].source.Some? then at + [n] else at;
            && ListsSources(rs, all)
            && SourceList(rs, all) == SourceList(rs[..n], at)
                                      + if rs[n].source.Some? then [Substitution.Replacement(rs[n].source.value.0, rs[n].source.value.1)] else []
  {
    hide ListsSources;
    var n := |rs| - 1;
    var all := if rs[n].source.Some? then at + [n] else at;
    ListedMore(rs, at);
    forall k | 0 <= k < |at|
      ensures all[k] == at[k] && at[k] < n && rs[..n][at[k]] == rs[at[k]]
    {
      ListedBelow(rs[..n], at, k);
    }
  }

  lemma ListedMore(rs: seq<Exact>, at: seq<nat>)
    requires rs != [] && ListsSources(rs[..|rs| - 1], at)
    ensures ListsSources(rs, if rs[|rs| - 1].source.Some? then at + [|rs| - 1] else at)
    ensures forall k :: 0 <= k < |at| ==> at[k] < |rs| - 1 && rs[at[k]].source.Some?
  {
    var n := |rs| - 1;
    var before := rs[..n];
    assert forall i :: 0 <= i < n ==> before[i] == rs[i];
    var all := if rs[n].source.Some? then at + [n] else at;
    AllListed(rs, at, all);
  }

  /** One more position, if the last replacement has a source. */
  lemma AllListed(rs: seq<Exact>, at: seq<nat>, all: seq<nat>)
    requires rs != [] && ListsSources(rs[..|rs| - 1], at) && all == if rs[|rs| - 1].source.Some? then at + [|rs| - 1] else at
    ensures forall i :: 0 <= i < |rs| && rs[i].source.Some? ==> i in all
  {
    var n := |rs| - 1;
    forall i | 0 <= i < |rs| && rs[i].source.Some?
      ensures i in all
    {
      if i < n {
        assert rs[..n][i] == rs[i];
        Included(at, i, all);
      } else {
        assert all[|at|] == n;
      }
    }
  }

  lemma Included(at: seq<nat>, i: nat, all: seq<nat>)
    requires i in at && at <= all
    ensures i in all
  {
    var k :| 0 <= k < |at| && at[k] == i;
    assert all[k] == i;
  }

  /** There is only one such list. */
  lemma {:induction false} SourcesAreListed(rs: seq<Exact>, a: seq<nat>, b: seq<nat>)
    requires ListsSources(rs, a) && ListsSources(rs, b)
    ensures a == b
    decreases |rs|
  {
    if rs == [] {
      NoSources(rs, a);
      NoSources(rs, b);
    } else {
      var n := |rs| - 1;
      var c := WithoutLast(rs, a);
      var d := WithoutLast(rs, b);
      SourcesAreListed(rs[..n], c, d);
    }
  }

  lemma NoSources(rs: seq<Exact>, at: seq<nat>)
    requires ListsSources(rs, at) && rs == []
    ensures at == []
  {
    ListedBelow(rs, at, 0);
  }

  lemma ListedLast(rs: seq<Exact>, at: seq<nat>, k: nat)
    requires ListsSources(rs, at) && k < |at| && at[k] == |rs| - 1
    ensures k == |at| - 1
  {
    hide ListsSources;
    ListedBelow(rs, at, k + 1);
    ListedInOrder(rs, at, k);
  }

  lemma ListedInOrder(rs: seq<Exact>, at: seq<nat>, k: nat)
    requires ListsSources(rs, at)
    ensures k + 1 < |at| ==> at[k] < at[k + 1]
  {
  }

  lemma ListedBelow(rs: seq<Exact>, at: seq<nat>, k: nat)
    requires ListsSources(rs, at)
    ensures k < |at| ==> at[k] < |rs|
  {
  }

  lemma WithoutLast(rs: seq<Exact>, at: seq<nat>) returns (b: seq<nat>)
    requires ListsSources(rs, at) && rs != []
    ensures ListsSources(rs[..|rs| - 1], b) && at == b + if rs[|rs| - 1].source.Some? then [|rs| - 1] else []
  {
    var n := |rs| - 1;
    if rs[n].source.Some? {
      var k :| 0 <= k < |at| && at[k] == n;
      ListedLast(rs, at, k);
      b := at[..k];
      forall i | 0 <= i < n && rs[i].source.Some?
        ensures i in b
      {
        var l :| 0 <= l < |at| && at[l] == i;
        assert b[l] == i;
      }
    } else {
      b := at;
    }
  }

  ghost predicate AppliesAt(base: string, rs: seq<Exact>, at: seq<nat>, text: string) {
    ListsSources(rs, at) && Applies(base, SourceList(rs, at), text)
  }

  ghost predicate Replaces(state: StateOperation, visible: string, c: Content, d: Content) {
    && state.Replace? && visible == d.output
    && Applies(c.output, OutputList(state.replacements), d.output)
    && exists at :: AppliesAt(c.source, state.replacements, at, d.source)
  }

  lemma ReplacesIff(state: StateOperation, visible: string, c: Content, d: Content)
    requires Decoded(state) && state.Replace?
    ensures Substitution.Anchored(OutputEdits(state.replacements)) && Substitution.Anchored(SourceEdits(state.replacements))
    ensures Replaces(state, visible, c, d) <==>
            && visible == d.output
            && Substitution.Meaning(c.output, OutputEdits(state.replacements)) == Substitution.Applied(d.output)
            && Substitution.Meaning(c.source, SourceEdits(state.replacements)) == Substitution.Applied(d.source)
  {
    hide Substitution.Meaning, Decoded, ListsSources, OutputEdits, SourceEdits, Substitution.Anchored, OutputList, SourceList;
    var rs := state.replacements;
    DecodedIsAnchored(state);
    OutputPairs(rs);
    var here := SourcePairs(rs);
    if Replaces(state, visible, c, d) {
      var at :| AppliesAt(c.source, rs, at, d.source);
      SourcesAreListed(rs, at, here);
    }
    if Substitution.Meaning(c.source, SourceEdits(rs)) == Substitution.Applied(d.source) {
      assert AppliesAt(c.source, rs, here, d.source);
    }
  }


  // ----- all three -----

  /** The content `d` that an operation makes of the content `c` of its base version. */
  ghost predicate Edits(state: StateOperation, visible: string, c: Content, d: Content)
    requires Extends(state)
  {
    && d.brief == (if state.newBrief.Some? then state.newBrief.value else c.brief)
    && d.template == c.template && d.blocks.None?
    && (|| Appends(state, visible, c, d)
        || Replaces(state, visible, c, d)
        || (state.Full? && d.output == visible && d.source == if state.source.Some? then state.source.value else c.source))
  }

  lemma AppendedIff(state: StateOperation, visible: string, c: Content, d: Content)
    requires Decoded(state) && state.Append?
    ensures Edited(state, visible, c) == Doc.Ok(d) <==>
            && d.brief == (if state.newBrief.Some? then state.newBrief.value else c.brief)
            && d.template == c.template && d.blocks.None? && Appends(state, visible, c, d)
  {
    hide AppendText, Joins;
    AppendJoins(d.source, c.source, state.sourceSeparator, state.sourceAddition);
    AppendJoins(d.output, c.output, state.outputSeparator, Addition(state, visible));
    StartsJoined(visible, c.output, state.outputSeparator);
  }

  /** An operation succeeds, with that content, exactly as its kind promises. */
  lemma EditedIff(state: StateOperation, visible: string, c: Content, d: Content)
    requires Decoded(state) && Extends(state)
    ensures Edited(state, visible, c) == Doc.Ok(d) <==> Edits(state, visible, c, d)
  {
    hide Joins, Substitution.Meaning, OutputEdits, SourceEdits, Appends, Replaces;
    if state.Append? {
      AppendedIff(state, visible, c, d);
      OtherKinds(state, visible, c, d);
    } else if state.Replace? {
      ReplacesIff(state, visible, c, d);
      OtherKinds(state, visible, c, d);
    } else {
      OtherKinds(state, visible, c, d);
    }
  }

  lemma OtherKinds(state: StateOperation, visible: string, c: Content, d: Content)
    ensures Appends(state, visible, c, d) ==> state.Append?
    ensures Replaces(state, visible, c, d) ==> state.Replace?
  {
    hide Joins, Applies, AppliesAt;
  }

  /** The content of a new item: the upload of the turn, or the conversation's latest one for a given block map, or text. */
  ghost predicate Establishes(r: Response, state: StateOperation, visible: string, d: Content) {
    && state.Establish? && d.output == visible && d.brief == state.brief && d.blocks.None?
    && if d.template.None? then r.own.None? && state.docxBlocks.None? && state.source == Some(d.source)
       else
         && state.docxBlocks.Some? && d.template == (if r.own.Some? then r.own else r.latest) && d.template.value in r.prepared
         && d.source == Doc.PlainText(Doc.BlockTexts(r.prepared[d.template.value]))
         && (state.source.Some? ==> state.source.value == d.source)
  }

  lemma EstablishedIff(r: Response, state: StateOperation, visible: string, d: Content)
    requires state.Establish?
    ensures state.docxBlocks.Some? && r.own.None? && r.latest.None? ==> Established(r, state, visible).Err?
    ensures Established(r, state, visible) == Doc.Ok(d) <==> Establishes(r, state, visible, d)
  {
    hide Doc.PlainText, Doc.BlockTexts;
  }

  /** When an operation may extend a version: it names it, and brings a block map exactly for Word-backed work. */
  ghost predicate MayExtend(r: Response, state: StateOperation, base: Version)
    requires Extends(state)
  {
    && state.baseVersion == base.number && r.own.None?
    && (base.content.template.Some? <==> base.content.blocks.Some?)
    && (base.content.template.Some? <==> StateBlocks(state).Some?)
    && (base.content.template.Some? ==> base.content.template.value in r.prepared)
  }

  lemma ExtendedIff(r: Response, state: StateOperation, visible: string, base: Version, d: Content)
    requires Decoded(state) && Extends(state)
    ensures Extended(r, state, visible, base) == Doc.Ok(d) <==> MayExtend(r, state, base) && Edits(state, visible, base.content, d)
  {
    hide Edits, Edited, Decoded;
    EditedIff(state, visible, base.content, d);
  }

  /** The version's content `e` records the draft `d`, which is not blank, not too long, and spelled by its block map. */
  ghost predicate Records(r: Response, state: StateOperation, maxWords: nat, d: Content, e: Content)
    requires d.template.Some? ==> d.template.value in r.prepared && StateBlocks(state).Some?
  {
    && e == d.(blocks := e.blocks) && !IsBlank(d.source) && !IsBlank(d.output) && d.brief != "" && CountWords(d.source) <= maxWords
    && (d.template.None? ==> e.blocks.None?)
    && (d.template.Some? ==>
          && var blocks := StateBlocks(state).value;
          && e.blocks.Some? && |e.blocks.value| == |blocks|
          && (forall i :: 0 <= i < |blocks| ==> e.blocks.value[i] == Doc.Replacement(blocks[i].id, blocks[i].text))
          && Doc.ValidReplacements(r.prepared[d.template.value], e.blocks.value)
          && d.output == Doc.PlainText(Doc.ReplacementTexts(e.blocks.value)))
  }

  lemma CheckedIff(r: Response, state: StateOperation, maxWords: nat, d: Content, e: Content)
    requires d.template.Some? ==> d.template.value in r.prepared && StateBlocks(state).Some?
    ensures Checked(r, state, maxWords, d) == Doc.Ok(e) <==> Records(r, state, maxWords, d, e)
  {
    hide IsBlank, CountWords, Doc.ValidReplacements, Doc.PlainText, Doc.ReplacementTexts, Doc.ReplacementError;
    if d.template.Some? {
      var rs := AsReplacements(StateBlocks(state).value);
      if Records(r, state, maxWords, d, e) {
        assert e.blocks.value == rs;
      }
    }
  }

  // ----- the tables -----

  /** A new item with its first version takes over the conversation; every other row stays, and other items of it retire. */
  ghost predicate AddsItem(s: Db, t: Db, thread: nat, i: nat, v: nat, c: Content) {
    && i !in s.items && v !in s.versions
    && t.items.Keys == s.items.Keys + {i} && t.items[i] == Item(thread, true)
    && (forall j <- s.items :: t.items[j] == if s.items[j].thread == thread then Item(thread, false) else s.items[j])
    && t.versions == s.versions[v := Version(i, 1, None, c)]
  }

  ghost predicate AddsVersion(s: Db, t: Db, base: nat, v: nat, c: Content) {
    && base in s.versions && v !in s.versions && t.items == s.items
    && t.versions == s.versions[v := Version(s.versions[base].item, s.versions[base].number + 1, Some(base), c)]
  }

  /** What a response records, and where. */
  ghost predicate Writes(maxWords: nat, s: Db, r: Response, t: Db, visible: string, base: nat, d: Content, e: Content) {
    var state := r.document.state;
    && (state.Establish? ==>
          && Establishes(r, state, visible, d) && Records(r, state, maxWords, d, e)
          && AddsItem(s, t, r.thread, s.next, s.next + 1, e))
    && (Extends(state) ==>
          && IsCurrent(s, r.thread, base) && MayExtend(r, state, s.versions[base]) && Edits(state, visible, s.versions[base].content, d)
          && Records(r, state, maxWords, d, e) && AddsVersion(s, t, base, s.next, e))
  }

  lemma AddsItemIs(s: Db, t: Db, thread: nat, c: Content)
    requires Refers(s)
    ensures AddsItem(s, AddItem(s, thread, c), thread, s.next, s.next + 1, c)
    ensures AddsItem(s, t, thread, s.next, s.next + 1, c) && t.next == s.next + 2 ==> t == AddItem(s, thread, c)
  {
  }

  lemma AddsVersionIs(s: Db, t: Db, base: nat, c: Content)
    requires Refers(s) && base in s.versions
    ensures AddsVersion(s, AddVersion(s, base, c), base, s.next, c)
    ensures AddsVersion(s, t, base, s.next, c) && t.next == s.next + 1 ==> t == AddVersion(s, base, c)
  {
  }

  /** A response with a state operation that commits: its only deliverable, and the content it records. */
  lemma CommitWrites(uploads: Uploads, maxWords: nat, s: Db, r: Response, t: Db) returns (k: nat, base: nat, d: Content, e: Content)
    requires Inv(uploads, maxWords, s) && Commits(uploads, maxWords, s, r, t) && !r.document.state.NoState?
    ensures OnlyDeliverable(r.document.blocks, k) && Writes(maxWords, s, r, t, r.document.blocks[k].text, base, d, e)
  {
    hide Inv, Prepared, Decoded, Established, Extended, Checked, Deliverables, Establishes, Edits, MayExtend, AddItem, AddVersion,
         AddsItem, AddsVersion, IsCurrent, Records;
    var state := r.document.state;
    k := OneDeliverable(r.document.blocks);
    var visible := Deliverables(r.document.blocks)[0];
    base := 0;
    InvRefers(uploads, maxWords, s);
    if state.Establish? {
      d := Established(r, state, visible).value;
      e := Checked(r, state, maxWords, d).value;
      EstablishedIff(r, state, visible, d);
      AddsItemIs(s, t, r.thread, e);
    } else {
      base := Current(s, r.thread).value;
      CurrentInside(s, r.thread, base);
      d := Extended(r, state, visible, s.versions[base]).value;
      e := Checked(r, state, maxWords, d).value;
      ExtendedIff(r, state, visible, s.versions[base], d);
      AddsVersionIs(s, t, base, e);
    }
    CheckedIff(r, state, maxWords, d, e);
  }

  lemma InvRefers(uploads: Uploads, maxWords: nat, db: Db)
    requires Inv(uploads, maxWords, db)
    ensures Refers(db)
  {
  }

  lemma CurrentInside(db: Db, thread: nat, v: nat)
    requires IsCurrent(db, thread, v)
    ensures v in db.versions
  {
  }

  /** Conversely, a response that may write a content does commit it. */
  lemma WrittenCommits(uploads: Uploads, maxWords: nat, s: Db, r: Response, t: Db, k: nat, base: nat, d: Content, e: Content)
    requires Inv(uploads, maxWords, s) && Decoded(r.document.state) && Prepared(uploads, r) && !r.document.state.NoState?
    requires OnlyDeliverable(r.document.blocks, k) && Writes(maxWords, s, r, t, r.document.blocks[k].text, base, d, e)
    requires t.next == s.next + if r.document.state.Establish? then 2 else 1
    ensures Commits(uploads, maxWords, s, r, t)
  {
    hide Inv, Prepared, Decoded, Established, Extended, Checked, Deliverables, Edits, MayExtend, AddItem, AddVersion, AddsItem, AddsVersion,
         IsCurrent, Records;
    var state, visible := r.document.state, r.document.blocks[k].text;
    DeliverableIs(r.document.blocks, k);
    InvRefers(uploads, maxWords, s);
    if state.Establish? {
      EstablishedIff(r, state, visible, d);
      AddsItemIs(s, t, r.thread, e);
    } else {
      CurrentIs(uploads, maxWords, s, r.thread, base);
      CurrentInside(s, r.thread, base);
      ExtendedIff(r, state, visible, s.versions[base], d);
      AddsVersionIs(s, t, base, e);
    }
    CheckedIff(r, state, maxWords, d, e);
  }

  /** Deleting a conversation deletes its items with their versions, and no others. */
  lemma DeleteWrites(uploads: Uploads, maxWords: nat, s: Db, thread: nat)
    requires Inv(uploads, maxWords, s)
    ensures var t := DeleteThread(s, thread);
            && (forall i <- s.items :: i in t.items <==> s.items[i].thread != thread)
            && (forall i <- t.items :: i in s.items && t.items[i] == s.items[i])
            && (forall v <- s.versions :: s.versions[v].item in s.items && (v in t.versions <==> s.items[s.versions[v].item].thread != thread))
            && (forall v <- t.versions :: v in s.versions && t.versions[v] == s.versions[v])
  {
    hide OneActive, Unique, Chained, Started, VersionOk;
  }

  // ----- words -----

  predicate Spaces(s: string) {
    forall i :: 0 <= i < |s| ==> IsSpace(s[i])
  }

  predicate IsWordRun(s: string) {
    s != "" && forall i :: 0 <= i < |s| ==> !IsSpace(s[i])
  }

  /** Words with white space around and between them. */
  predicate Spaced(gaps: seq<string>, words: seq<string>) {
    && |gaps| == |words| + 1
    && (forall i :: 0 <= i < |gaps| ==> Spaces(gaps[i]) && (0 < i < |words| ==> gaps[i] != ""))
    && (forall i :: 0 <= i < |words| ==> IsWordRun(words[i]))
  }

  function Laid(gaps: seq<string>, words: seq<string>): string
    requires |gaps| == |words| + 1
  {
    if words == [] then gaps[0]
    else
      var n := |words|;
      Laid(gaps[..n], words[..n - 1]) + words[n - 1] + gaps[n]
  }

  lemma {:induction false} SpacesCountNothing(a: string, gap: string)
    requires Spaces(gap)
    ensures CountWords(a + gap) == CountWords(a)
    decreases |gap|
  {
    if gap == "" {
      assert a + gap == a;
    } else {
      SpacesCountNothing(a, gap[..|gap| - 1]);
      assert (a + gap)[..|a + gap| - 1] == a + gap[..|gap| - 1];
    }
  }

  lemma {:induction false} WordCountsOnce(a: string, word: string)
    requires IsWordRun(word) && (a == "" || IsSpace(a[|a| - 1]))
    ensures CountWords(a + word) == CountWords(a) + 1
    decreases |word|
  {
    var n := |word| - 1;
    assert (a + word)[..|a + word| - 1] == a + word[..n];
    if n == 0 {
      assert a + word[..n] == a;
    } else {
      WordCountsOnce(a, word[..n]);
      assert (a + word)[|a + word| - 2] == word[n - 1];
    }
  }

  /** The word count is the number of maximal runs without white space. */
  lemma {:induction false} WordsAreCounted(gaps: seq<string>, words: seq<string>)
    requires Spaced(gaps, words)
    ensures CountWords(Laid(gaps, words)) == |words|
    decreases |words|
  {
    hide CountWords;
    var n := |words|;
    if n == 0 {
      SpacesCountNothing("", gaps[0]);
      assert "" + gaps[0] == gaps[0];
      NoWords();
    } else {
      var g, w := gaps[..n], words[..n - 1];
      WordsAreCounted(g, w);
      var a := Laid(g, w);
      EndsInSpace(g, w);
      assert n > 1 ==> g[n - 1] == gaps[n - 1];
      WordCountsOnce(a, words[n - 1]);
      SpacesCountNothing(a + words[n - 1], gaps[n]);
    }
  }

  lemma NoWords()
    ensures CountWords("") == 0
  {
  }

  lemma EndsInSpace(gaps: seq<string>, words: seq<string>)
    requires |gaps| == |words| + 1 && Spaces(gaps[|words|]) && (words != [] ==> gaps[|words|] != "")
    ensures var a := Laid(gaps, words); a == "" || IsSpace(a[|a| - 1])
  {
  }

  /** Every text is laid out like that. */
  lemma {:induction false} WordsOf(s: string) returns (gaps: seq<string>, words: seq<string>)
    ensures Spaced(gaps, words) && Laid(gaps, words) == s
  {
    hide Spaced, Laid;
    if s == "" {
      gaps, words := [""], [];
      NothingLaid();
    } else {
      var before, c := s[..|s| - 1], s[|s| - 1];
      assert s == before + [c];
      gaps, words := WordsOf(before);
      gaps, words := OneCharacter(gaps, words, c);
    }
  }

  lemma NothingLaid()
    ensures Spaced([""], []) && Laid([""], []) == ""
  {
  }

  lemma OneCharacter(gaps: seq<string>, words: seq<string>, c: char) returns (gaps': seq<string>, words': seq<string>)
    requires Spaced(gaps, words)
    ensures Spaced(gaps', words') && Laid(gaps', words') == Laid(gaps, words) + [c]
  {
    hide Laid;
    var n := |words|;
    LaidLast(gaps, words);
    gaps', words' := gaps, words;
    if IsSpace(c) {
      gaps' := gaps[..n] + [gaps[n] + [c]];
      LaidLast(gaps', words');
      assert gaps'[..n] == gaps[..n];
    } else if n > 0 && gaps[n] == "" {
      words' := words[..n - 1] + [words[n - 1] + [c]];
      LaidLast(gaps', words');
      assert words'[..n - 1] == words[..n - 1];
    } else {
      gaps', words' := gaps + [""], words + [[c]];
      LaidLast(gaps', words');
      assert gaps'[..n + 1] == gaps && words'[..n] == words;
    }
  }

  lemma LaidLast(gaps: seq<string>, words: seq<string>)
    requires |gaps| == |words| + 1
    ensures var n := |words|;
            Laid(gaps, words) == (if n == 0 then "" else Laid(gaps[..n], words[..n - 1]) + words[n - 1]) + gaps[n]
  {
  }
}
